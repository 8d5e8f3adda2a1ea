/**
 * The Konami-code detector: a window of the last ten key codes, matched
 * against the code after every key press.
 */
module Konami {
  const KonamiCode: seq<string> :=
    ["ArrowUp", "ArrowUp", "ArrowDown", "ArrowDown",
     "ArrowLeft", "ArrowRight", "ArrowLeft", "ArrowRight",
     "KeyB", "KeyA"]

  const WindowSize := 10

  /** The last `n` elements of `s` (all of `s` when it is shorter), in order. */
  function LastN(s: seq<string>, n: nat): (r: seq<string>)
    ensures |r| == (if |s| < n then |s| else n)
    ensures forall i :: 0 <= i < |r| ==> r[i] == s[|s| - |r| + i]
  {
    if |s| <= n then s else s[|s| - n..]
  }

  /** One key press: the code is appended and the window cut to its last ten entries. */
  function Push(window: seq<string>, code: string): (w: seq<string>)
    ensures |w| <= WindowSize
  {
    LastN(window + [code], WindowSize)
  }

  /** The element-wise comparison of `w` with the code from position `i` on. */
  function MatchesFrom(w: seq<string>, i: nat): (r: bool)
    requires |w| == |KonamiCode| && i <= |w|
    ensures r <==> w[i..] == KonamiCode[i..]
    decreases |w| - i
  {
    i == |w| || (w[i] == KonamiCode[i] && MatchesFrom(w, i + 1))
  }

  /** The activation test: the window has ten entries, each equal to the code's. */
  function Matches(w: seq<string>): (r: bool)
    ensures r <==> w == KonamiCode
  {
    |w| == |KonamiCode| && MatchesFrom(w, 0)
  }

  /** The window after a whole run of key presses. */
  function PushAll(window: seq<string>, keys: seq<string>): seq<string>
    decreases |keys|
  {
    if keys == [] then window else PushAll(Push(window, keys[0]), keys[1..])
  }

  lemma LastNOfLastN(s: seq<string>, t: seq<string>, n: nat)
    ensures LastN(LastN(s, n) + t, n) == LastN(s + t, n)
  {
    var a := LastN(LastN(s, n) + t, n);
    var b := LastN(s + t, n);
    assert |a| == |b|;
    forall i | 0 <= i < |a|
      ensures a[i] == b[i]
    {
      var u := LastN(s, n) + t;
      if |u| - |a| + i >= |LastN(s, n)| {
        assert a[i] == t[|u| - |a| + i - |LastN(s, n)|];
      }
    }
  }

  /** After any run of keys the window is the last ten entries of everything typed. */
  lemma {:induction false} PushAllWindow(window: seq<string>, keys: seq<string>)
    requires |window| <= WindowSize
    ensures PushAll(window, keys) == LastN(window + keys, WindowSize)
    decreases |keys|
  {
    if keys == [] {
      assert window + keys == window;
    } else {
      PushAllWindow(Push(window, keys[0]), keys[1..]);
      LastNOfLastN(window + [keys[0]], keys[1..], WindowSize);
      assert window + [keys[0]] + keys[1..] == window + keys;
    }
  }

  /**
   * Typing the code activates the detector whatever came before: once the
   * last ten keys are the code, the window matches.
   */
  lemma CodeActivates(window: seq<string>, keys: seq<string>)
    requires |window| <= WindowSize
    requires |keys| >= WindowSize && keys[|keys| - WindowSize..] == KonamiCode
    ensures Matches(PushAll(window, keys))
  {
    PushAllWindow(window, keys);
    var all := window + keys;
    var w := LastN(all, WindowSize);
    assert forall i :: 0 <= i < WindowSize ==> w[i] == keys[|keys| - WindowSize + i];
  }

  /** The detector hook's state. */
  class Detector {
    var sequence: seq<string>
    var konamiActivated: bool

    ghost predicate Valid()
      reads this
    {
      |sequence| <= WindowSize
    }

    constructor ()
      ensures Valid() && sequence == [] && !konamiActivated
    {
      sequence := [];
      konamiActivated := false;
    }

    /**
     * A key press: the window becomes the last ten codes typed; when it
     * equals the code the detector activates (`fired`). A non-matching
     * window leaves the flag as it was.
     */
    method KeyPress(code: string) returns (fired: bool)
      requires Valid()
      modifies this
      ensures Valid()
      ensures sequence == Push(old(sequence), code)
      ensures sequence == LastN(old(sequence) + [code], WindowSize)
      ensures fired <==> sequence == KonamiCode
      ensures konamiActivated == (old(konamiActivated) || fired)
    {
      var newSequence := Push(sequence, code);
      sequence := newSequence;
      fired := Matches(newSequence);
      if fired {
        konamiActivated := true;
      }
    }

    /** The delayed reset after the effect: the flag cleared and the window emptied. */
    method ResetAfterEffect()
      modifies this
      ensures Valid() && sequence == [] && !konamiActivated
    {
      konamiActivated := false;
      sequence := [];
    }
  }
}
