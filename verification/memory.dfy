/**
 * The memory-sequence game: at level n a fresh sequence of n colours is
 * shown, then the player repeats it. A wrong colour loses; a complete
 * sequence earns 10 points per level, and clearing level 10 wins.
 */
module Memory {
  import opened Wrappers

  datatype Color = Red | Green | Blue | Yellow

  const Palette: seq<Color> := [Red, Green, Blue, Yellow]
  const MaxLevel := 10
  const PointsPerLevel := 10

  datatype Status = Waiting | Showing | Input | Won | Lost

  /**
   * generateSequence: `level` colours, the i-th being the palette entry
   * picked by the i-th random draw in `picks`.
   */
  method GenerateSequence(level: nat, picks: seq<nat>) returns (s: seq<Color>)
    requires |picks| == level
    requires forall i :: 0 <= i < |picks| ==> picks[i] < |Palette|
    ensures |s| == level
    ensures forall i :: 0 <= i < level ==> s[i] == Palette[picks[i]]
  {
    s := [];
    var i := 0;
    while i < level
      invariant 0 <= i <= level
      invariant |s| == i
      invariant forall j :: 0 <= j < i ==> s[j] == Palette[picks[j]]
    {
      s := s + [Palette[picks[i]]];
      i := i + 1;
    }
  }

  /** Points held after clearing levels 1..k: 10 + 20 + ... + 10k. */
  function LevelTotal(k: nat): nat {
    if k == 0 then 0 else LevelTotal(k - 1) + PointsPerLevel * k
  }

  /** The closed form 10 k (k + 1) / 2; clearing all ten levels holds 550 points. */
  lemma {:induction false} LevelTotalClosedForm(k: nat)
    ensures LevelTotal(k) == 5 * k * (k + 1)
  {
    if k > 0 {
      LevelTotalClosedForm(k - 1);
    }
  }

  lemma WinTotal()
    ensures LevelTotal(MaxLevel) == 550
  {
    LevelTotalClosedForm(MaxLevel);
  }

  /** `p` is a prefix of `s`. */
  predicate IsPrefix(p: seq<Color>, s: seq<Color>) {
    |p| <= |s| && p == s[..|p|]
  }

  /** The memory component's state. */
  class Game {
    var sequence: seq<Color>
    var playerSequence: seq<Color>
    var isShowingSequence: bool
    var state: Status
    var currentLevel: nat
    var score: nat
    var highScore: nat

    /**
     * The level is 1..10 and the score is what the cleared levels earned:
     * levels 1..level-1, or all ten once won. While collecting input the
     * player's colours are a prefix of the sequence (empty while it is
     * being shown).
     */
    ghost predicate Valid()
      reads this
    {
      && 1 <= currentLevel <= MaxLevel
      && (state == Won ==> currentLevel == MaxLevel)
      && score == (if state == Won then LevelTotal(currentLevel) else LevelTotal(currentLevel - 1))
      && (state == Showing ==> playerSequence == [])
      && (state == Input ==> IsPrefix(playerSequence, sequence))
    }

    constructor ()
      ensures Valid()
      ensures sequence == [] && playerSequence == [] && !isShowingSequence
      ensures state == Waiting && currentLevel == 1 && score == 0 && highScore == 0
    {
      sequence := [];
      playerSequence := [];
      isShowingSequence := false;
      state := Waiting;
      currentLevel := 1;
      score := 0;
      highScore := 0;
    }

    /**
     * startNewRound: replaces the sequence with a fresh one, empties the
     * player's input and starts showing. Both callers run it from a timer,
     * so it reads `currentLevel` as the render that set the timer saw it:
     * `roundLevel` is that level, and the sequence has that many colours.
     * The callers are startGame, which set its timer before resetting, and
     * the timer set when a level below 10 is cleared, which was set before
     * the level went up. That timer is never cancelled, so it also fires
     * after a click in the following second has lost the game, and the lost
     * game starts over. No round is scheduled once level 10 is won.
     */
    method StartNewRound(roundLevel: nat, picks: seq<nat>)
      requires Valid() && state != Won
      requires |picks| == roundLevel
      requires forall i :: 0 <= i < |picks| ==> picks[i] < |Palette|
      modifies this
      ensures Valid()
      ensures currentLevel == old(currentLevel) && score == old(score) && highScore == old(highScore)
      ensures |sequence| == roundLevel
      ensures forall i :: 0 <= i < |picks| ==> sequence[i] == Palette[picks[i]]
      ensures playerSequence == [] && state == Showing && isShowingSequence
    {
      var newSequence := GenerateSequence(roundLevel, picks);
      sequence := newSequence;
      playerSequence := [];
      state := Showing;
      isShowingSequence := true;
    }

    /**
     * showSequence, as one transition: the playback of the sequence ends
     * and input is collected.
     */
    method ShowSequence()
      requires Valid() && state == Showing
      modifies this
      ensures Valid()
      ensures state == Input && !isShowingSequence
      ensures sequence == old(sequence) && playerSequence == old(playerSequence)
      ensures currentLevel == old(currentLevel) && score == old(score) && highScore == old(highScore)
    {
      isShowingSequence := false;
      state := Input;
    }

    /**
     * handleColorClick: ignored unless collecting input and not showing.
     * The colour is appended to the input. If it differs from the colour
     * at that position (or the sequence is already complete) the game is
     * lost and the score of the earlier levels is reported. If it
     * completes the sequence the level's points are added; level 10 wins
     * and reports the total, a lower level advances and schedules the next
     * round. `nextRound` is the level that round will read: the level just
     * cleared, one below the new level.
     */
    method HandleColorClick(color: Color) returns (report: Option<nat>, nextRound: Option<nat>)
      requires Valid()
      modifies this
      ensures Valid()
      ensures sequence == old(sequence) && highScore == old(highScore)
      ensures isShowingSequence == old(isShowingSequence)
      ensures old(state) != Input || old(isShowingSequence) ==>
                unchanged(this) && report == None && nextRound == None
      ensures old(state) == Input && !old(isShowingSequence) ==>
                var n := |old(playerSequence)|;
                && playerSequence == old(playerSequence) + [color]
                && (if n >= |sequence| || color != sequence[n] then
                      && state == Lost && report == Some(old(score)) && nextRound == None
                      && score == old(score) && currentLevel == old(currentLevel)
                    else if n + 1 < |sequence| then
                      && state == Input && report == None && nextRound == None
                      && score == old(score) && currentLevel == old(currentLevel)
                    else if old(currentLevel) >= MaxLevel then
                      && state == Won && score == old(score) + old(currentLevel) * PointsPerLevel
                      && report == Some(score) && score == 550 && nextRound == None
                      && currentLevel == old(currentLevel)
                    else
                      && state == Input && score == old(score) + old(currentLevel) * PointsPerLevel
                      && currentLevel == old(currentLevel) + 1 && report == None
                      && nextRound == Some(old(currentLevel)))
    {
      report, nextRound := None, None;
      if state != Input || isShowingSequence {
        return;
      }
      var newPlayerSequence := playerSequence + [color];
      playerSequence := newPlayerSequence;
      if |newPlayerSequence| > |sequence| || color != sequence[|newPlayerSequence| - 1] {
        state := Lost;
        report := Some(score);
        return;
      }
      assert IsPrefix(newPlayerSequence, sequence);
      if |newPlayerSequence| == |sequence| {
        var points := currentLevel * PointsPerLevel;
        var before := score;
        score := score + points;
        if currentLevel >= MaxLevel {
          state := Won;
          WinTotal();
          report := Some(before + points);
        } else {
          currentLevel := currentLevel + 1;
          nextRound := Some(currentLevel - 1);
        }
      }
    }

    /** resetGame: both sequences emptied, waiting, level 1, score 0, the best score kept. */
    method ResetGame()
      modifies this
      ensures Valid()
      ensures sequence == [] && playerSequence == [] && !isShowingSequence
      ensures state == Waiting && currentLevel == 1 && score == 0
      ensures highScore == if old(highScore) >= old(score) then old(highScore) else old(score)
    {
      sequence := [];
      playerSequence := [];
      state := Waiting;
      currentLevel := 1;
      highScore := if highScore >= score then highScore else score;
      score := 0;
      isShowingSequence := false;
    }

    /**
     * startGame: a reset, then the first round. The round's timer was set
     * before the reset took effect, so the round is as long as the level
     * the previous game ended at (one colour only on the very first game).
     */
    method StartGame(picks: seq<nat>)
      requires |picks| == currentLevel
      requires forall i :: 0 <= i < |picks| ==> picks[i] < |Palette|
      modifies this
      ensures Valid()
      ensures |sequence| == old(currentLevel)
      ensures forall i :: 0 <= i < |picks| ==> sequence[i] == Palette[picks[i]]
      ensures playerSequence == [] && state == Showing && isShowingSequence
      ensures currentLevel == 1 && score == 0
      ensures highScore == if old(highScore) >= old(score) then old(highScore) else old(score)
    {
      var previousLevel := currentLevel;
      ResetGame();
      StartNewRound(previousLevel, picks);
    }
  }
}
