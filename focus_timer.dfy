/** The focus timer: a countdown with a configurable length, kept in browser
    storage as `{ endAt, duration }` so that a running countdown survives a
    reload. Times are milliseconds since the epoch and are parameters. */
module FocusTimer {
  import opened Common
  import opened Text

  /** `formatSeconds`: whole minutes, a colon, the remaining seconds, each
      zero-padded to two digits. */
  function FormatSeconds(total: nat): string {
    Pad2(NatToString(total / 60)) + ":" + Pad2(NatToString(total % 60))
  }

  /** The label reads back as the number of seconds: the text before the
      last three characters is the minutes, the last two the seconds. */
  lemma FormatSecondsParts(total: nat)
    ensures var s := FormatSeconds(total); var n := |s|;
      && n >= 5 && s[n - 3] == ':'
      && AllDigits(s[..n - 3]) && AllDigits(s[n - 2..])
      && DecimalValue(s[..n - 3]) * 60 + DecimalValue(s[n - 2..]) == total
      && (total < 6000 ==> n == 5)
  {
    var m, sec := Pad2(NatToString(total / 60)), Pad2(NatToString(total % 60));
    Pad2Value(total / 60);
    Pad2Digits(total % 60);
    var s := FormatSeconds(total);
    assert s == m + ":" + sec;
    assert s[..|s| - 3] == m;
    assert s[|s| - 2..] == sec;
    if total < 6000 {
      Pad2Digits(total / 60);
    }
  }

  /** The record the timer keeps in storage. */
  datatype SavedTimer = SavedTimer(endAt: Option<int>, duration: int)

  /** The Apply button's length in seconds: the minutes clamped to 5..120. */
  function AppliedSeconds(minutes: int): (r: int)
    ensures 300 <= r <= 7200 && r % 60 == 0
    ensures 5 <= minutes <= 120 ==> r == minutes * 60
    ensures minutes < 5 ==> r == 300
    ensures minutes > 120 ==> r == 7200
  {
    var clamped := if minutes > 120 then 120 else if minutes < 5 then 5 else minutes;
    clamped * 60
  }

  /** The seconds left before `endAt`, to the nearest second and never
      below zero. */
  function Remaining(endAt: int, now: int): (r: int)
    ensures r >= 0
    ensures endAt <= now ==> r == 0
  {
    var rounded := RoundDiv(endAt - now, 1000);
    if rounded < 0 then 0 else rounded
  }

  class Timer {
    var defaultSeconds: int
    var secondsLeft: int
    var running: bool
    var durationMinutes: int
    var saved: Option<SavedTimer>

    constructor (saved: Option<SavedTimer>)
      ensures defaultSeconds == 1500 && secondsLeft == 1500 && !running && durationMinutes == 25
      ensures this.saved == saved
    {
      defaultSeconds := 1500;
      secondsLeft := 1500;
      running := false;
      durationMinutes := 25;
      this.saved := saved;
    }

    /** The effect on mount: a stored length replaces the default, and a
        stored end time still in the future resumes the countdown. */
    method Restore(now: int)
      modifies this
      ensures old(saved).Some? && old(saved).value.duration != 0 ==>
        defaultSeconds == old(saved).value.duration && durationMinutes == RoundDiv(old(saved).value.duration, 60)
      ensures !(old(saved).Some? && old(saved).value.duration != 0) ==>
        defaultSeconds == old(defaultSeconds) && durationMinutes == old(durationMinutes)
      ensures old(saved).Some? && old(saved).value.endAt.Some? && old(saved).value.endAt.value > now && old(saved).value.endAt.value != 0 ==>
        secondsLeft == Remaining(old(saved).value.endAt.value, now) && secondsLeft >= 0 && running
      ensures !(old(saved).Some? && old(saved).value.endAt.Some? && old(saved).value.endAt.value > now && old(saved).value.endAt.value != 0) ==>
        secondsLeft == old(secondsLeft) && running == old(running)
      ensures saved == old(saved)
    {
      if saved.None? {
        return;
      }
      var parsed := saved.value;
      if parsed.duration != 0 {
        durationMinutes := RoundDiv(parsed.duration, 60);
        defaultSeconds := parsed.duration;
      }
      if parsed.endAt.Some? && parsed.endAt.value != 0 && parsed.endAt.value > now {
        secondsLeft := Remaining(parsed.endAt.value, now);
        running := true;
      }
    }

    /** The Start/Pause button. */
    method Toggle()
      modifies this
      ensures running == !old(running)
      ensures secondsLeft == old(secondsLeft) && defaultSeconds == old(defaultSeconds) && saved == old(saved)
      ensures durationMinutes == old(durationMinutes)
    {
      running := !running;
    }

    /** The effect that runs when the countdown starts: it stores when the
        countdown will end and returns that time for the ticks. */
    method BeginRun(now: int) returns (endAt: int)
      requires running
      modifies this
      ensures endAt == now + old(secondsLeft) * 1000
      ensures saved == Some(SavedTimer(Some(endAt), old(defaultSeconds)))
      ensures secondsLeft == old(secondsLeft) && defaultSeconds == old(defaultSeconds) && running
      ensures durationMinutes == old(durationMinutes)
    {
      endAt := now + secondsLeft * 1000;
      saved := Some(SavedTimer(Some(endAt), defaultSeconds));
    }

    /** One tick of the interval. */
    method Tick(endAt: int, now: int)
      modifies this
      ensures secondsLeft == Remaining(endAt, now) && secondsLeft >= 0
      ensures running == old(running) && defaultSeconds == old(defaultSeconds) && saved == old(saved)
      ensures durationMinutes == old(durationMinutes)
    {
      secondsLeft := Remaining(endAt, now);
    }

    /** The effect on `secondsLeft`, given the value of the render before:
        it runs only when the value changed, and a change to zero stops the
        countdown and clears the stored end time. */
    method ZeroStop(prev: int)
      modifies this
      ensures prev != old(secondsLeft) && old(secondsLeft) == 0 ==>
        !running && saved == Some(SavedTimer(None, old(defaultSeconds)))
      ensures !(prev != old(secondsLeft) && old(secondsLeft) == 0) ==> running == old(running) && saved == old(saved)
      ensures secondsLeft == old(secondsLeft) && defaultSeconds == old(defaultSeconds)
      ensures durationMinutes == old(durationMinutes)
    {
      if prev != secondsLeft && secondsLeft == 0 {
        running := false;
        saved := Some(SavedTimer(None, defaultSeconds));
      }
    }

    /** The Reset button: stopped, back to the full length. */
    method Reset()
      modifies this
      ensures !running && secondsLeft == defaultSeconds == old(defaultSeconds)
      ensures saved == Some(SavedTimer(None, defaultSeconds))
      ensures durationMinutes == old(durationMinutes)
    {
      running := false;
      secondsLeft := defaultSeconds;
      saved := Some(SavedTimer(None, defaultSeconds));
    }

    /** The Apply button: the clamped length becomes the default and the
        time left, and the countdown stops. */
    method Apply()
      modifies this
      ensures defaultSeconds == secondsLeft == AppliedSeconds(old(durationMinutes))
      ensures 300 <= secondsLeft <= 7200 && !running
      ensures saved == Some(SavedTimer(None, defaultSeconds))
      ensures durationMinutes == old(durationMinutes)
    {
      var next := AppliedSeconds(durationMinutes);
      defaultSeconds := next;
      secondsLeft := next;
      running := false;
      saved := Some(SavedTimer(None, next));
    }
  }

  /** A tick at or after the end time brings a countdown that was not at
      zero down to zero, and the zero-stop that follows it stops the
      countdown. */
  method TickToEnd(t: Timer, endAt: int, now: int)
    requires endAt <= now && t.secondsLeft != 0
    modifies t
    ensures t.secondsLeft == 0 && !t.running
    ensures t.saved == Some(SavedTimer(None, t.defaultSeconds))
    ensures t.defaultSeconds == old(t.defaultSeconds) && t.durationMinutes == old(t.durationMinutes)
  {
    var prev := t.secondsLeft;
    t.Tick(endAt, now);
    t.ZeroStop(prev);
  }

  /** When a sprint has run out, pressing Start again leaves the countdown
      running at zero: the ticks keep setting zero, `secondsLeft` does not
      change, and the zero-stop never runs again. */
  method RestartAtZeroStaysRunning(start: int, later: int) returns (t: Timer)
    requires start + 1500000 <= later
    ensures t.secondsLeft == 0 && t.running
    ensures FormatSeconds(0) == "00:00"
  {
    t := new Timer(None);
    // The first sprint: Start, the run effect, a tick at the end, the stop.
    t.Toggle();
    var endAt := t.BeginRun(start);
    TickToEnd(t, endAt, later);
    assert !t.running && t.secondsLeft == 0;
    // Start again from 00:00.
    t.Toggle();
    var endAt2 := t.BeginRun(later);
    var prev := t.secondsLeft;
    t.Tick(endAt2, later + 1000);
    t.ZeroStop(prev);
  }
}
