/**
 * The configuration data of `constants.js`: the two level tables, the alphabet of
 * the name editor, the default sensory settings and the image constraints.
 */
module Constants {

  /** One entry of a level table. */
  datatype Level = Level(level: int, pieces: int, stars: int)

  const LevelsNeurotypical: seq<Level> := [
    Level(1, 4, 0), Level(2, 4, 0), Level(3, 4, 0),
    Level(4, 9, 0), Level(5, 9, 0), Level(6, 9, 0),
    Level(7, 16, 0), Level(8, 16, 0), Level(9, 16, 0),
    Level(10, 25, 0)]

  /** The TEA progression: more gradual, at most 16 pieces. */
  const LevelsTea: seq<Level> := [
    Level(1, 4, 0), Level(2, 4, 0),
    Level(3, 6, 0), Level(4, 6, 0),
    Level(5, 9, 0), Level(6, 9, 0),
    Level(7, 12, 0), Level(8, 12, 0),
    Level(9, 16, 0), Level(10, 16, 0)]

  const Alphabet: seq<char> := "ABCDEFGHIJKLMNOPQRSTUVWXYZ"

  /** The keyboard's letters are the 26 capitals, in order. */
  lemma AlphabetIsAtoZ()
    ensures |Alphabet| == 26
    ensures forall k :: 0 <= k < |Alphabet| ==> Alphabet[k] as int == 'A' as int + k
  {
  }

  /**
   * The sensory settings record (`music_enabled`, `sfx_enabled`, `volume`,
   * `haptic_enabled`, `high_contrast`, `reduced_motion`, `auto_hints`,
   * `auto_hints_delay`).
   */
  datatype SensoryConfig = SensoryConfig(
    musicEnabled: bool,
    sfxEnabled: bool,
    volume: real,
    hapticEnabled: bool,
    highContrast: bool,
    reducedMotion: bool,
    autoHints: bool,
    autoHintsDelay: int)

  const DefaultSensoryConfigTea := SensoryConfig(false, true, 0.30, true, false, false, true, 15000)

  const DefaultSensoryConfigNeurotypical := SensoryConfig(true, true, 0.50, true, false, false, false, 0)

  const MaxSizeMb := 5
  const MaxImages := 10
  const SupportedFormats: seq<string> := ["image/jpeg", "image/png", "image/webp", "image/avif"]
  /** Side of the square canvas, in pixels. */
  const TargetSize := 800
  /** Duration of the TEA countdown, in milliseconds. */
  const TransitionDurationMs := 3000

  /** Levels are numbered 1, 2, ... in table order and start with no stars. */
  ghost predicate WellNumbered(table: seq<Level>) {
    forall i :: 0 <= i < |table| ==> table[i].level == i + 1 && table[i].stars == 0
  }

  /** Piece counts never decrease along the table. */
  ghost predicate PiecesNonDecreasing(table: seq<Level>) {
    forall i, j :: 0 <= i <= j < |table| ==> table[i].pieces <= table[j].pieces
  }

  /** Both tables hold ten levels, numbered 1..10, none starred yet. */
  lemma TablesWellNumbered()
    ensures |LevelsNeurotypical| == 10 && WellNumbered(LevelsNeurotypical)
    ensures |LevelsTea| == 10 && WellNumbered(LevelsTea)
  {
  }

  /** The difficulty of a table never goes down from one level to the next. */
  lemma TablesNonDecreasing()
    ensures PiecesNonDecreasing(LevelsNeurotypical)
    ensures PiecesNonDecreasing(LevelsTea)
  {
  }

  /** The TEA table never asks for more than 16 pieces. */
  lemma TeaAtMostSixteen()
    ensures forall i :: 0 <= i < |LevelsTea| ==> LevelsTea[i].pieces <= 16
  {
  }
}
