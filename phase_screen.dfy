/**
 * The level-selection screen of the TEA mode: it shows one level, says whether it
 * can be played, and offers the neighbouring levels. A level is playable when it is
 * the first or the previous level has earned a star; the next level is offered only
 * after the current one has a star and has been completed three times.
 */
module PhaseScreen {
  import opened Wrappers

  /** One entry of `levelProgress`; `completions` may be missing. */
  datatype LevelProgress = LevelProgress(pieces: int, stars: int, completions: Option<int>)

  /** The buttons the screen can show. */
  datatype Button = Play | Previous | Next

  const RequiredCompletions := 3

  /** The shown level exists: the screen reads `levelProgress[currentLevel]`. */
  predicate ValidLevel(levels: seq<LevelProgress>, current: int) {
    0 <= current < |levels|
  }

  /**
   * `isUnlocked`: the first level, or one whose predecessor has a star. On progress
   * with no star anywhere only the first level is open.
   */
  predicate IsUnlocked(levels: seq<LevelProgress>, current: int)
    requires ValidLevel(levels, current)
    ensures current == 0 ==> IsUnlocked(levels, current)
    ensures (forall i :: 0 <= i < |levels| ==> levels[i].stars <= 0) ==> (IsUnlocked(levels, current) <==> current == 0)
  {
    current == 0 || levels[current - 1].stars > 0
  }

  /** `currentPhase.completions || 0`. */
  function Completions(phase: LevelProgress): (c: int)
    ensures phase.completions.None? ==> c == 0
    ensures phase.completions.Some? ==> c == phase.completions.value
  {
    phase.completions.GetOr(0)
  }

  /**
   * The buttons shown for level `current`: Play exactly when the level is unlocked,
   * Previous exactly when there is an earlier level, Next exactly when there is a
   * later level and the current one has a star and three completions.
   */
  function Buttons(levels: seq<LevelProgress>, current: int): (shown: set<Button>)
    requires ValidLevel(levels, current)
    ensures Play in shown <==> IsUnlocked(levels, current)
    ensures Previous in shown <==> current > 0
    ensures Next in shown <==>
      current < |levels| - 1 && levels[current].stars > 0 && Completions(levels[current]) >= 3
  {
    (if IsUnlocked(levels, current) then {Play} else {})
    + (if current > 0 then {Previous} else {})
    + (if current < |levels| - 1 && levels[current].stars > 0
          && Completions(levels[current]) >= RequiredCompletions then {Next} else {})
  }

  /** The level each button passes to `onSelectLevel`. */
  function Target(b: Button, current: int): int {
    match b
    case Play => current
    case Previous => current - 1
    case Next => current + 1
  }

  /**
   * Every button selects an existing level; selecting the shown level is only
   * possible when it is unlocked, and the level Next leads to is itself unlocked.
   */
  lemma SelectionsAreSound(levels: seq<LevelProgress>, current: int, b: Button)
    requires ValidLevel(levels, current) && b in Buttons(levels, current)
    ensures ValidLevel(levels, Target(b, current))
    ensures Target(b, current) == current ==> IsUnlocked(levels, current)
    ensures b == Next ==> IsUnlocked(levels, Target(b, current))
    ensures b == Previous ==> Target(b, current) == current - 1
  {
  }

  /** `levelProgress.filter(l => l.stars > 0).length`. */
  function StarredCount(levels: seq<LevelProgress>): (n: nat)
    ensures n <= |levels|
  {
    if |levels| == 0 then 0
    else StarredCount(levels[..|levels| - 1]) + (if levels[|levels| - 1].stars > 0 then 1 else 0)
  }

  /** The indices of the levels that have a star. */
  function StarredLevels(levels: seq<LevelProgress>): set<int> {
    set i | 0 <= i < |levels| && levels[i].stars > 0
  }

  /** The overall progress counts exactly the levels with a star. */
  lemma {:induction false} StarredCountIsStarredLevels(levels: seq<LevelProgress>)
    ensures StarredCount(levels) == |StarredLevels(levels)|
  {
    if |levels| > 0 {
      var n := |levels| - 1;
      var init := levels[..n];
      StarredCountIsStarredLevels(init);
      var before := StarredLevels(init);
      assert n !in before;
      if levels[n].stars > 0 {
        assert StarredLevels(levels) == before + {n};
      } else {
        assert StarredLevels(levels) == before;
      }
    }
  }

  /** Full progress means every level has a star. */
  lemma {:induction false} FullProgress(levels: seq<LevelProgress>)
    ensures StarredCount(levels) == |levels| <==> forall i :: 0 <= i < |levels| ==> levels[i].stars > 0
  {
    if |levels| > 0 {
      var n := |levels| - 1;
      var init := levels[..n];
      FullProgress(init);
      assert forall i :: 0 <= i < n ==> init[i] == levels[i];
    }
  }

  /** The completion circles show for an unlocked level played at least once. */
  predicate CirclesShown(levels: seq<LevelProgress>, current: int)
    requires ValidLevel(levels, current)
  {
    IsUnlocked(levels, current) && Completions(levels[current]) > 0
  }

  /** Circle `i` (0, 1 or 2) is ticked. */
  predicate CircleTicked(phase: LevelProgress, i: int) {
    i < Completions(phase)
  }

  /** "Play N more time(s)": shown below the circles while fewer than three completions. */
  function RemainingPlays(phase: LevelProgress): Option<int> {
    if Completions(phase) < RequiredCompletions then Some(RequiredCompletions - Completions(phase)) else None
  }

  /**
   * When the circles show, the ticked circles are a prefix of the three, and the
   * remaining-plays message shows 1 or 2, the number of unticked circles.
   */
  lemma CirclesAndMessage(levels: seq<LevelProgress>, current: int)
    requires ValidLevel(levels, current) && CirclesShown(levels, current)
    ensures var phase := levels[current];
      && CircleTicked(phase, 0)
      && (forall i, j :: 0 <= i <= j < 3 && CircleTicked(phase, j) ==> CircleTicked(phase, i))
      && (RemainingPlays(phase).Some? <==> !CircleTicked(phase, 2))
      && (RemainingPlays(phase).Some? ==>
            && 1 <= RemainingPlays(phase).value <= 2
            && RemainingPlays(phase).value == |set i | 0 <= i < 3 && !CircleTicked(phase, i)|)
  {
    var phase := levels[current];
    if Completions(phase) == 1 {
      assert (set i | 0 <= i < 3 && !CircleTicked(phase, i)) == {1, 2};
    } else if Completions(phase) == 2 {
      assert (set i | 0 <= i < 3 && !CircleTicked(phase, i)) == {2};
    }
  }

  /** Star `s` (1, 2 or 3) is lit. */
  predicate StarLit(phase: LevelProgress, s: int) {
    phase.stars >= s
  }

  /** The lit stars are the first `stars` of the three (none when stars is 0 or less). */
  lemma LitStarsArePrefix(phase: LevelProgress, s: int)
    requires 1 <= s <= 3
    ensures StarLit(phase, s) <==> s <= phase.stars
    ensures StarLit(phase, s) ==> forall t :: 1 <= t <= s ==> StarLit(phase, t)
    ensures phase.stars <= 0 ==> !StarLit(phase, s)
    ensures phase.stars >= 3 ==> StarLit(phase, s)
  {
  }
}
