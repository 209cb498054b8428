/** The session countdown shown after a successful login (app.js `showSuccess`): every
    second the remaining time is shown as HH:MM:SS and then decremented, never below zero. */
module Countdown {
  import opened Wrappers
  import opened Decimal

  /** `SESSION_DURATION`: eight hours, in seconds. */
  const SessionDuration: nat := 8 * 3600

  /** `s.padStart(2, '0')`. */
  function PadTwo(s: string): string {
    if |s| == 0 then "00" else if |s| == 1 then "0" + s else s
  }

  /** The text the timer shows for `time` seconds left. */
  function Clock(time: nat): string {
    PadTwo(DecimalString(time / 3600)) + ":" +
    PadTwo(DecimalString((time % 3600) / 60)) + ":" +
    PadTwo(DecimalString(time % 60))
  }

  /** Reads back an `H…H:MM:SS` text, rejecting anything else. */
  function ParseClock(s: string): Option<nat> {
    var n := |s|;
    if n < 8 || s[n - 3] != ':' || s[n - 6] != ':' then None
    else ClockFields(s[..n - 6], s[n - 5..n - 3], s[n - 2..])
  }

  /** The number of seconds the three fields of a clock text denote, if they are digits
      and the minutes and seconds are below 60. */
  function ClockFields(h: string, m: string, sec: string): Option<nat> {
    if !AllDigits(h) || !AllDigits(m) || !AllDigits(sec) then None
    else if DecimalValue(m) >= 60 || DecimalValue(sec) >= 60 then None
    else Some(3600 * DecimalValue(h) + 60 * DecimalValue(m) + DecimalValue(sec))
  }

  /** Padding to two characters keeps the digits' value. */
  lemma PadTwoKeepsValue(n: nat)
    ensures var p := PadTwo(DecimalString(n));
      AllDigits(p) && DecimalValue(p) == n && 2 <= |p| && (n < 100 ==> |p| == 2)
  {
    DecimalStringRoundTrip(n);
    var s := DecimalString(n);
    if |s| == 1 {
      LeadingZero(s);
    }
  }

  /** The shown text reads back as the number of seconds left, for every duration. */
  lemma ClockRoundTrip(time: nat)
    ensures ParseClock(Clock(time)) == Some(time)
  {
    var h, m, sec := time / 3600, (time % 3600) / 60, time % 60;
    HoursMinutesSeconds(time);
    var hs, ms, ss := PadTwo(DecimalString(h)), PadTwo(DecimalString(m)), PadTwo(DecimalString(sec));
    PadTwoKeepsValue(h);
    PadTwoKeepsValue(m);
    PadTwoKeepsValue(sec);
    assert Clock(time) == hs + ":" + ms + ":" + ss;
    ParseFields(hs, ms, ss);
    assert ClockFields(hs, ms, ss) == Some(3600 * h + 60 * m + sec);
  }

  /** Hours, minutes below 60 and seconds below 60 add back up to the duration. */
  lemma HoursMinutesSeconds(time: nat)
    ensures (time % 3600) / 60 < 60 && time % 60 < 60
    ensures 3600 * (time / 3600) + 60 * ((time % 3600) / 60) + time % 60 == time
  {
    var q, r := time / 3600, time % 3600;
    var m, sec := r / 60, r % 60;
    assert time == 60 * (60 * q + m) + sec;
    assert time % 60 == sec by {
      RemainderBySixty(time, 60 * q + m, sec);
    }
  }

  lemma RemainderBySixty(x: int, q: int, r: int)
    requires 0 <= r < 60 && x == 60 * q + r
    ensures x % 60 == r
  {
  }

  /** A text of at least two characters, a colon, two characters, a colon and two
      characters is read field by field. */
  lemma ParseFields(hs: string, ms: string, ss: string)
    requires |hs| >= 2 && |ms| == 2 && |ss| == 2
    ensures ParseClock(hs + ":" + ms + ":" + ss) == ClockFields(hs, ms, ss)
  {
    var s := hs + ":" + ms + ":" + ss;
    var n := |s|;
    assert n == |hs| + 6;
    assert s[n - 3] == ':' && s[n - 6] == ':';
    assert s[..n - 6] == hs;
    assert s[n - 5..n - 3] == ms;
    assert s[n - 2..] == ss;
  }

  /** Within a two-digit number of hours the timer always shows eight characters. */
  lemma ClockWidth(time: nat)
    requires time < 100 * 3600
    ensures |Clock(time)| == 8
  {
    PadTwoKeepsValue(time / 3600);
    PadTwoKeepsValue((time % 3600) / 60);
    PadTwoKeepsValue(time % 60);
  }

  /** A fresh session starts at 08:00:00. */
  lemma SessionStartsAtEightHours()
    ensures Clock(SessionDuration) == "08:00:00"
  {
    assert DecimalString(8) == "8";
    assert DecimalString(0) == "0";
  }

  /** The `time` variable of one `setInterval` callback started by `showSuccess`. */
  class Timer {
    var time: nat

    constructor ()
      ensures time == SessionDuration
    {
      time := SessionDuration;
    }

    /** One firing of the interval: show the remaining time, then count down one second,
        stopping at zero. */
    method Tick() returns (display: string)
      modifies this
      ensures display == Clock(old(time))
      ensures ParseClock(display) == Some(old(time))
      ensures time == if old(time) > 0 then old(time) - 1 else 0
    {
      display := Clock(time);
      ClockRoundTrip(time);
      if time > 0 {
        time := time - 1;
      }
    }
  }
}
