/**
 * The background refresh scheduler of `src/lib/autoRefresh.ts`: two pieces of module
 * state, the handle of the armed interval timer and the period it was armed with, and the
 * four operations over them. The timer itself is abstracted to the set of armed timers
 * with their periods; a real start also triggers one immediate refresh, counted here.
 */
module AutoRefresh {
  import opened Js

  /** The minutes used when the setting is absent, empty, zero or not a number. */
  const DefaultMinutes := 15

  /** `getSetting('refresh_interval') || '15'`: an absent or empty setting reads as '15'. */
  function IntervalText(setting: Option<string>): (r: string)
    ensures r != ""
    ensures setting.Some? && setting.value != "" ==> r == setting.value
  {
    if setting.Some? && setting.value != "" then setting.value else "15"
  }

  /** `parseInt(intervalStr, 10) || 15`: NaN and 0 are falsy and fall back to 15. */
  function IntervalMinutes(setting: Option<string>): (m: int)
    ensures m != 0
    ensures ParseInt(IntervalText(setting)).Truthy() ==> m == ParseInt(IntervalText(setting)).v
    ensures !ParseInt(IntervalText(setting)).Truthy() ==> m == DefaultMinutes
  {
    var n := ParseInt(IntervalText(setting));
    if n.Truthy() then n.v else DefaultMinutes
  }

  /** The timer period in milliseconds. */
  function IntervalMs(setting: Option<string>): (ms: int)
    ensures ms != 0
    ensures ms == IntervalMinutes(setting) * 60000
  {
    IntervalMinutes(setting) * 60 * 1000
  }

  /** A stored number of minutes other than 0 is used as it is. */
  lemma IntervalOfStoredMinutes(n: int)
    requires n != 0
    ensures IntervalMinutes(Some(IntToString(n))) == n
    ensures IntervalMs(Some(IntToString(n))) == n * 60000
  {
    ParseIntOfIntToString(n);
  }

  /** An absent or empty setting reads as '15': 15 minutes. */
  lemma IntervalWhenUnset()
    ensures IntervalMs(None) == 900000
    ensures IntervalMs(Some("")) == 900000
  {
    assert IntToString(15) == "15" by {
      assert NatToString(15) == NatToString(1) + [DigitChar(5)];
    }
    IntervalOfStoredMinutes(15);
  }

  /** A stored '0' is falsy once parsed and falls back to 15 minutes. */
  lemma IntervalWhenZero()
    ensures IntervalMs(Some("0")) == 900000
  {
    assert IntToString(0) == "0";
    ParseIntOfIntToString(0);
  }

  /** A setting with no leading digits parses to NaN and falls back to 15 minutes. */
  lemma IntervalWhenNotANumber()
    ensures IntervalMs(Some("abc")) == 900000
  {
    assert TrimStart("abc") == "abc";
    assert Unsigned("abc") == "abc";
    assert LeadingDigits("abc") == "";
  }

  /** parseInt stops at the first non-digit: '30 minutes' is 30 minutes. */
  lemma IntervalIgnoresTrailingText()
    ensures IntervalMs(Some("30 minutes")) == 1800000
  {
    var t := "30 minutes";
    assert TrimStart(t) == t;
    assert Unsigned(t) == t;
    assert LeadingDigits(t[2..]) == "";
    assert LeadingDigits(t[1..]) == "0" by { assert t[1..][1..] == t[2..]; }
    assert LeadingDigits(t) == "30";
    assert DigitsValue("30") == 30 by { assert "30"[..1] == "3"; }
  }

  /** The scheduler's state as the module holds it, and the timers it has armed. */
  ghost predicate Coherent(intervalId: Option<nat>, currentInterval: Option<int>, armed: map<nat, int>, nextTimer: nat) {
    && (intervalId.Some? <==> currentInterval.Some?)
    && armed == (if intervalId.Some? then map[intervalId.value := currentInterval.value] else map[])
    && (forall t :: t in armed ==> t < nextTimer)
  }

  /** In a coherent state at most one timer is armed, and it is the recorded one (used by `IsRunning`). */
  lemma AtMostOneTimer(intervalId: Option<nat>, currentInterval: Option<int>, armed: map<nat, int>, nextTimer: nat)
    requires Coherent(intervalId, currentInterval, armed, nextTimer)
    ensures |armed| <= 1
    ensures forall t :: t in armed ==> intervalId == Some(t) && currentInterval == Some(armed[t])
  {
    if intervalId.Some? {
      assert armed.Keys == {intervalId.value};
    }
  }

  class Scheduler {
    /** `intervalId`: the handle of the armed timer, or null. */
    var intervalId: Option<nat>
    /** `currentInterval`: the period that timer was armed with, or null. */
    var currentInterval: Option<int>
    /** The interval timers armed and not cleared, by handle, with their periods. */
    var armed: map<nat, int>
    /** The handle the next `setInterval` returns. */
    var nextTimer: nat
    /** How many immediate refreshes the scheduler has triggered. */
    var refreshes: nat

    ghost predicate Valid()
      reads this
    {
      Coherent(intervalId, currentInterval, armed, nextTimer)
    }

    /** The module as it is loaded: no timer. */
    constructor ()
      ensures Valid()
      ensures intervalId == None && currentInterval == None && armed == map[] && refreshes == 0
    {
      intervalId := None;
      currentInterval := None;
      armed := map[];
      nextTimer := 0;
      refreshes := 0;
    }

    /** `isAutoRefreshRunning`. */
    method IsRunning() returns (running: bool)
      requires Valid()
      ensures running <==> intervalId.Some?
      ensures running <==> |armed| == 1
    {
      AtMostOneTimer(intervalId, currentInterval, armed, nextTimer);
      running := intervalId.Some?;
    }

    /** `stopAutoRefresh`: clears the timer and both fields when running; otherwise nothing. */
    method Stop()
      requires Valid()
      modifies this`intervalId, this`currentInterval, this`armed
      ensures Valid()
      ensures intervalId == None && currentInterval == None && armed == map[]
      ensures old(intervalId).None? ==> armed == old(armed) && currentInterval == old(currentInterval)
    {
      if intervalId.Some? {
        armed := armed - {intervalId.value};
        intervalId := None;
        currentInterval := None;
      }
    }

    /**
     * `startAutoRefresh`, given the stored setting: a no-op when a timer with the same
     * period is armed; otherwise the old timer (if any) is stopped, a new one is armed
     * with the new period, and one refresh runs at once.
     */
    method Start(setting: Option<string>)
      requires Valid()
      modifies this
      ensures Valid()
      ensures var ms := IntervalMs(setting);
        if old(intervalId).Some? && old(currentInterval) == Some(ms) then
          && intervalId == old(intervalId) && currentInterval == old(currentInterval)
          && armed == old(armed) && nextTimer == old(nextTimer) && refreshes == old(refreshes)
        else
          && intervalId == Some(old(nextTimer)) && currentInterval == Some(ms)
          && armed == map[old(nextTimer) := ms] && nextTimer == old(nextTimer) + 1
          && refreshes == old(refreshes) + 1
      ensures |armed| <= 1
      ensures old(intervalId).Some? ==>
        (old(intervalId).value in armed <==> old(currentInterval) == Some(IntervalMs(setting)))
    {
      var ms := IntervalMs(setting);
      if intervalId.Some? && currentInterval == Some(ms) {
        return;
      }
      if intervalId.Some? {
        Stop();
      }
      currentInterval := Some(ms);
      intervalId := Some(nextTimer);
      armed := armed[nextTimer := ms];
      nextTimer := nextTimer + 1;
      refreshes := refreshes + 1;
    }

    /** `restartAutoRefresh`: stop, then start; it always arms a fresh timer and refreshes once. */
    method Restart(setting: Option<string>)
      requires Valid()
      modifies this
      ensures Valid()
      ensures intervalId == Some(old(nextTimer)) && currentInterval == Some(IntervalMs(setting))
      ensures armed == map[old(nextTimer) := IntervalMs(setting)]
      ensures refreshes == old(refreshes) + 1
    {
      Stop();
      Start(setting);
    }
  }
}
