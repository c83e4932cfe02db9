/**
 * The countdown between screens of the TEA mode: a once-a-second interval counts
 * 3, 2, 1, 0; the tick that reaches 0 stops the interval and schedules `onComplete`,
 * and every other tick vibrates when sound effects are on and the device can vibrate.
 * The screen also vibrates once when it starts, under the same condition.
 */
module TransitionScreen {

  const InitialCountdown := 3

  /** What one tick of the interval does. */
  datatype Tick = Tick(next: int, completes: bool, vibrates: bool)

  /** The `setCountdown(prev => ...)` updater, with its side effects as flags. */
  function Step(prev: int, sfxEnabled: bool, canVibrate: bool): (t: Tick)
    ensures t.next >= 0
    ensures t.completes <==> t.next == 0
    ensures t.completes ==> !t.vibrates
    ensures t.vibrates <==> !t.completes && sfxEnabled && canVibrate
    ensures prev >= 1 ==> t.next == prev - 1
  {
    if prev <= 1 then Tick(0, true, false)
    else Tick(prev - 1, false, sfxEnabled && canVibrate)
  }

  /** The countdown values shown over `k` ticks that do not complete, starting from `n`. */
  function Countdown(n: int, k: nat, sfxEnabled: bool, canVibrate: bool): int
    decreases k
  {
    if k == 0 then n else Countdown(Step(n, sfxEnabled, canVibrate).next, k - 1, sfxEnabled, canVibrate)
  }

  /** From `n >= 1`, the `n`-th tick is the first to complete: the earlier ones count down by one. */
  lemma {:induction false} TicksToZero(n: int, k: nat, sfxEnabled: bool, canVibrate: bool)
    requires n >= 1 && k <= n
    ensures Countdown(n, k, sfxEnabled, canVibrate) == n - k
    ensures k < n ==> (Step(Countdown(n, k, sfxEnabled, canVibrate), sfxEnabled, canVibrate).completes <==> k == n - 1)
    decreases k
  {
    if k > 0 {
      if n == 1 {
        assert Countdown(n, k, sfxEnabled, canVibrate) == Countdown(0, k - 1, sfxEnabled, canVibrate);
        assert k == 1;
      } else {
        TicksToZero(n - 1, k - 1, sfxEnabled, canVibrate);
      }
    }
  }

  /** From 3: the ticks show 2, 1, 0; only the third completes; the first two vibrate when enabled. */
  lemma ThreeTwoOneZero(sfxEnabled: bool, canVibrate: bool)
    ensures var t1 := Step(InitialCountdown, sfxEnabled, canVibrate);
      var t2 := Step(t1.next, sfxEnabled, canVibrate);
      var t3 := Step(t2.next, sfxEnabled, canVibrate);
      && t1.next == 2 && t2.next == 1 && t3.next == 0
      && !t1.completes && !t2.completes && t3.completes
      && t1.vibrates == (sfxEnabled && canVibrate) && t2.vibrates == (sfxEnabled && canVibrate)
      && !t3.vibrates
  {
  }

  /** The countdown state, the interval, and whether the start-up vibration fired. */
  class Transition {
    var countdown: int
    var running: bool
    var completionScheduled: bool
    var startVibrated: bool

    ghost predicate Valid()
      reads this
    {
      0 <= countdown <= InitialCountdown && (running <==> countdown > 0)
      && (completionScheduled <==> countdown == 0)
    }

    /** Mounting the screen: the 100 ms vibration fires iff sound effects are on and the device can vibrate. */
    constructor (sfxEnabled: bool, canVibrate: bool)
      ensures countdown == InitialCountdown && running && !completionScheduled
      ensures startVibrated <==> sfxEnabled && canVibrate
      ensures Valid()
    {
      countdown := InitialCountdown;
      running := true;
      completionScheduled := false;
      startVibrated := sfxEnabled && canVibrate;
    }

    /** One firing of the interval; nothing fires once it has been cleared. */
    method OnInterval(sfxEnabled: bool, canVibrate: bool) returns (vibrated: bool)
      modifies this
      ensures old(running) ==> countdown == Step(old(countdown), sfxEnabled, canVibrate).next
      ensures old(running) ==> vibrated == Step(old(countdown), sfxEnabled, canVibrate).vibrates
      ensures old(running) ==> running == !Step(old(countdown), sfxEnabled, canVibrate).completes
      ensures old(running) ==>
        completionScheduled == (old(completionScheduled) || Step(old(countdown), sfxEnabled, canVibrate).completes)
      ensures !old(running) ==> !vibrated && countdown == old(countdown) && running == old(running)
      ensures !old(running) ==> completionScheduled == old(completionScheduled)
      ensures startVibrated == old(startVibrated)
      ensures old(Valid()) ==> Valid()
    {
      vibrated := false;
      if !running {
        return;
      }
      if countdown <= 1 {
        running := false;
        completionScheduled := true;
        countdown := 0;
      } else {
        if sfxEnabled && canVibrate {
          vibrated := true;
        }
        countdown := countdown - 1;
      }
    }
  }

  /** `getTargetMessage`: the label of the button that leads to the next screen. */
  function TargetMessage(targetScreen: string): (m: string)
    ensures targetScreen == "game" <==> m == "Come\U{E7}ar Jogo"
    ensures targetScreen == "victory" <==> m == "Ver Resultado"
    ensures targetScreen != "game" && targetScreen != "victory" <==> m == "Pr\U{F3}xima Tela"
  {
    match targetScreen
    case "game" => "Come\U{E7}ar Jogo"
    case "victory" => "Ver Resultado"
    case _ => "Pr\U{F3}xima Tela"
  }
}
