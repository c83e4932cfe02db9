/**
 * The sensory settings panel. Each control builds a new configuration from the old
 * one with a single field replaced: a switch negates one flag, the volume slider
 * sets the volume, and the delay selector, shown only while automatic hints are on,
 * sets the hint delay to the number written in the chosen option.
 */
module SettingsPanel {
  import opened Constants
  import opened Numerals

  /** The fields the switches flip. */
  datatype ToggleKey = MusicEnabled | SfxEnabled | HapticEnabled | HighContrast | ReducedMotion | AutoHints

  /** `config[key]`. */
  function Flag(config: SensoryConfig, key: ToggleKey): bool {
    match key
    case MusicEnabled => config.musicEnabled
    case SfxEnabled => config.sfxEnabled
    case HapticEnabled => config.hapticEnabled
    case HighContrast => config.highContrast
    case ReducedMotion => config.reducedMotion
    case AutoHints => config.autoHints
  }

  /** `handleToggle(key)`: `{...config, [key]: !config[key]}`. */
  function Toggle(config: SensoryConfig, key: ToggleKey): (r: SensoryConfig)
    ensures Flag(r, key) == !Flag(config, key)
    ensures forall other :: other != key ==> Flag(r, other) == Flag(config, other)
    ensures r.volume == config.volume && r.autoHintsDelay == config.autoHintsDelay
  {
    match key
    case MusicEnabled => config.(musicEnabled := !config.musicEnabled)
    case SfxEnabled => config.(sfxEnabled := !config.sfxEnabled)
    case HapticEnabled => config.(hapticEnabled := !config.hapticEnabled)
    case HighContrast => config.(highContrast := !config.highContrast)
    case ReducedMotion => config.(reducedMotion := !config.reducedMotion)
    case AutoHints => config.(autoHints := !config.autoHints)
  }

  /** Two configurations that agree on every flag, the volume and the delay are the same. */
  lemma FieldsDetermine(a: SensoryConfig, b: SensoryConfig)
    requires forall key :: Flag(a, key) == Flag(b, key)
    requires a.volume == b.volume && a.autoHintsDelay == b.autoHintsDelay
    ensures a == b
  {
    assert Flag(a, MusicEnabled) == Flag(b, MusicEnabled);
    assert Flag(a, SfxEnabled) == Flag(b, SfxEnabled);
    assert Flag(a, HapticEnabled) == Flag(b, HapticEnabled);
    assert Flag(a, HighContrast) == Flag(b, HighContrast);
    assert Flag(a, ReducedMotion) == Flag(b, ReducedMotion);
    assert Flag(a, AutoHints) == Flag(b, AutoHints);
  }

  /** Flipping the same switch twice restores the configuration. */
  lemma ToggleTwice(config: SensoryConfig, key: ToggleKey)
    ensures Toggle(Toggle(config, key), key) == config
  {
    FieldsDetermine(Toggle(Toggle(config, key), key), config);
  }

  /** `handleVolumeChange`: the slider's value, already read as a number. */
  function SetVolume(config: SensoryConfig, volume: real): (r: SensoryConfig)
    ensures r.volume == volume && r.autoHintsDelay == config.autoHintsDelay
    ensures forall key :: Flag(r, key) == Flag(config, key)
  {
    config.(volume := volume)
  }

  /** The `value` attributes of the delay options, in milliseconds. */
  const DelayOptions: seq<string> := ["5000", "10000", "15000", "20000", "30000"]

  lemma DelayOptionsAreNumerals()
    ensures forall k :: 0 <= k < |DelayOptions| ==> forall i :: 0 <= i < |DelayOptions[k]| ==> IsDigit(DelayOptions[k][i])
  {
  }

  /** `handleHintsDelayChange(option)`: the delay becomes `parseInt(option)`. */
  function SetHintsDelay(config: SensoryConfig, option: nat): (r: SensoryConfig)
    requires option < |DelayOptions|
    ensures r.autoHintsDelay == SelectableDelays[option]
    ensures r.volume == config.volume
    ensures forall key :: Flag(r, key) == Flag(config, key)
  {
    DelayOptionsAreNumerals();
    OptionValue(option);
    config.(autoHintsDelay := ParseDigits(DelayOptions[option]))
  }

  /** The delays, in milliseconds, in the order the selector lists them. */
  const SelectableDelays: seq<int> := [5000, 10000, 15000, 20000, 30000]

  /** Option `k` sets the delay to the `k`-th of 5, 10, 15, 20 and 30 seconds. */
  lemma OptionsSetDelays(config: SensoryConfig)
    ensures |DelayOptions| == |SelectableDelays|
    ensures forall option :: 0 <= option < |DelayOptions| ==>
      SetHintsDelay(config, option).autoHintsDelay == SelectableDelays[option]
  {
    forall option | 0 <= option < |DelayOptions|
      ensures SetHintsDelay(config, option).autoHintsDelay == SelectableDelays[option]
    {
      OptionValue(option);
    }
  }

  /** A whole number of seconds, in milliseconds, renders as the seconds followed by three zeros. */
  lemma ThousandsNumeral(n: nat)
    requires n >= 1
    ensures Decimal(n * 1000) == Decimal(n) + "000"
  {
    DecimalAppend(n, 0);
    DecimalAppend(10 * n, 0);
    DecimalAppend(100 * n, 0);
    assert Digit(0) == '0';
  }

  /** Ten or more seconds, in milliseconds: the two digits of the seconds, then three zeros. */
  lemma TwoDigitSeconds(a: char, b: char, delay: nat)
    requires IsDigit(a) && a != '0' && IsDigit(b)
    requires delay == (((a as int) - ('0' as int)) * 10 + ((b as int) - ('0' as int))) * 1000
    ensures Decimal(delay) == [a, b, '0', '0', '0']
  {
    var high, low := (a as int) - ('0' as int), (b as int) - ('0' as int);
    ThousandsNumeral(10 * high + low);
    DecimalAppend(high, low);
    assert Digit(high) == a && Digit(low) == b;
  }

  /** Each option's text is the numeral of its delay. */
  lemma OptionNumeral(option: nat)
    requires option < |DelayOptions|
    ensures DelayOptions[option] == Decimal(SelectableDelays[option])
  {
    if option == 0 {
      ThousandsNumeral(5);
      assert Digit(5) == '5';
    } else if option == 1 {
      TwoDigitSeconds('1', '0', 10000);
    } else if option == 2 {
      TwoDigitSeconds('1', '5', 15000);
    } else if option == 3 {
      TwoDigitSeconds('2', '0', 20000);
    } else {
      TwoDigitSeconds('3', '0', 30000);
    }
  }

  /** `parseInt` reads each option's text back as its delay. */
  lemma OptionValue(option: nat)
    requires option < |DelayOptions|
    ensures ParseDigits(DelayOptions[option]) == SelectableDelays[option]
  {
    var delay := SelectableDelays[option];
    OptionNumeral(option);
    ParseDecimal(delay);
  }

  /** The delay selector is part of the panel. */
  predicate DelaySelectorShown(config: SensoryConfig) {
    config.autoHints
  }

  /** The selector appears and disappears with the automatic-hints switch, and no other. */
  lemma SelectorFollowsAutoHints(config: SensoryConfig, key: ToggleKey)
    ensures DelaySelectorShown(Toggle(config, key)) <==>
      (if key == AutoHints then !DelaySelectorShown(config) else DelaySelectorShown(config))
  {
  }

  /** The TEA defaults show the selector, set to one of its options (15 seconds). */
  lemma TeaDefaultIsAnOption()
    ensures DelaySelectorShown(DefaultSensoryConfigTea)
    ensures SetHintsDelay(DefaultSensoryConfigTea, 2) == DefaultSensoryConfigTea
  {
    OptionsSetDelays(DefaultSensoryConfigTea);
  }
}
