/**
 * The countdown of `Countdown.tsx`: the milliseconds left until the raffle's
 * target date split into days, hours, minutes and seconds, the expiry flag
 * that a non-positive difference raises, and the two-digit rendering of each
 * part. The clock is passed in as the current time in milliseconds.
 */
module Countdown {
  import opened Wrappers
  import Text

  const MsPerSecond: int := 1000
  const MsPerMinute: int := 60 * MsPerSecond
  const MsPerHour: int := 60 * MsPerMinute
  const MsPerDay: int := 24 * MsPerHour

  /** The four boxes of the countdown. */
  datatype TimeLeft = TimeLeft(days: int, hours: int, minutes: int, seconds: int)

  /**
   * The split of a positive difference: whole days, then the hours, minutes
   * and seconds of the part of a day that is left, each floored.
   */
  function Decompose(diff: int): (t: TimeLeft)
    requires diff > 0
    ensures t.days >= 0 && 0 <= t.hours < 24 && 0 <= t.minutes < 60 && 0 <= t.seconds < 60
  {
    TimeLeft(diff / MsPerDay, (diff / MsPerHour) % 24, (diff / MsPerMinute) % 60, (diff / MsPerSecond) % 60)
  }

  /** The whole seconds a split stands for. */
  function Seconds(t: TimeLeft): int
  {
    t.days * 86400 + t.hours * 3600 + t.minutes * 60 + t.seconds
  }

  /**
   * The split loses nothing but the milliseconds: putting the parts back
   * together gives the whole seconds left. With the bounds on each part, this
   * makes the split the only one with those bounds.
   */
  lemma DecomposeRecomposes(diff: int)
    requires diff > 0
    ensures Seconds(Decompose(diff)) == diff / MsPerSecond
  {
    var s := diff / 1000;
    var m := s / 60;
    var h := m / 60;
    assert diff / MsPerMinute == m;
    assert diff / MsPerHour == h;
    assert diff / MsPerDay == h / 24;
    assert s == m * 60 + s % 60;
    assert m == h * 60 + m % 60;
    assert h == h / 24 * 24 + h % 24;
  }

  /** A quotient and a remainder below the base are fixed by the number they make. */
  lemma PlaceUnique(a: int, r: int, b: int, s: int, base: int)
    requires base > 0 && 0 <= r < base && 0 <= s < base
    requires a * base + r == b * base + s
    ensures a == b && r == s
  {
    if a < b {
      assert b * base - a * base == (b - a) * base;
      AtLeastOnce(b - a, base);
    } else if b < a {
      assert a * base - b * base == (a - b) * base;
      AtLeastOnce(a - b, base);
    }
  }

  /** A positive number of positive bases is at least one base. */
  lemma {:induction false} AtLeastOnce(k: int, base: int)
    requires k >= 1 && base > 0
    ensures k * base >= base
  {
    if k > 1 {
      AtLeastOnce(k - 1, base);
      assert k * base == (k - 1) * base + base;
    }
  }

  /** Two splits within the bounds that stand for the same number of seconds are the same split. */
  lemma SplitUnique(t: TimeLeft, u: TimeLeft)
    requires 0 <= t.hours < 24 && 0 <= t.minutes < 60 && 0 <= t.seconds < 60
    requires 0 <= u.hours < 24 && 0 <= u.minutes < 60 && 0 <= u.seconds < 60
    requires Seconds(t) == Seconds(u)
    ensures t == u
  {
    var c := t.days * 24 + t.hours;
    var d := u.days * 24 + u.hours;
    var a := c * 60 + t.minutes;
    var b := d * 60 + u.minutes;
    assert Seconds(t) == a * 60 + t.seconds && Seconds(u) == b * 60 + u.seconds;
    PlaceUnique(a, t.seconds, b, u.seconds, 60);
    PlaceUnique(c, t.minutes, d, u.minutes, 60);
    PlaceUnique(t.days, t.hours, u.days, u.hours, 24);
  }

  /** `value < 10 ? `0${value}` : value`. */
  function TimeBoxText(value: int): string
  {
    if value < 10 then "0" + Text.IntToString(value) else Text.IntToString(value)
  }

  /** Every box of a split shows its value in at least two digits, zero-padded, as `padStart(2, "0")` would. */
  lemma TimeBoxPads(value: nat)
    ensures TimeBoxText(value) == Text.PadStart(Text.NatToString(value), 2, '0')
    ensures |TimeBoxText(value)| >= 2
    ensures Text.AllDigits(TimeBoxText(value)) && Text.DigitsValue(TimeBoxText(value)) == value
  {
    Text.PadStartValue(value, 2);
    var s := Text.NatToString(value);
    if value < 10 {
      assert Text.PadStart(s, 2, '0') == Text.Repeat('0', 1) + s;
      assert Text.Repeat('0', 1) == "0";
    } else {
      assert |s| >= 2;
    }
  }

  /** The component's state for one target date; `None` is a date string that does not parse. */
  class CountdownTimer {
    const target: Option<int>
    var timeLeft: TimeLeft
    var isExpired: bool

    /** Every box holds a value in its range, so each renders as at least two digits. */
    ghost predicate Valid()
      reads this
    {
      timeLeft.days >= 0 && 0 <= timeLeft.hours < 24 && 0 <= timeLeft.minutes < 60 && 0 <= timeLeft.seconds < 60
    }

    constructor (target: Option<int>)
      ensures this.target == target
      ensures timeLeft == TimeLeft(0, 0, 0, 0) && !isExpired
      ensures Valid()
    {
      this.target := target;
      timeLeft := TimeLeft(0, 0, 0, 0);
      isExpired := false;
    }

    /**
     * `calculateTimeLeft` at time `now`: a positive difference replaces the
     * split; otherwise, or when the date does not parse (a `NaN`
     * difference), the countdown expires and the split stays as it was.
     * Nothing here lowers the flag again.
     */
    method CalculateTimeLeft(now: int)
      requires Valid()
      modifies this
      ensures target.Some? && target.value - now > 0 ==>
        timeLeft == Decompose(target.value - now) && isExpired == old(isExpired)
      ensures target.None? || target.value - now <= 0 ==>
        isExpired && timeLeft == old(timeLeft)
      ensures old(isExpired) ==> isExpired
      ensures Valid()
    {
      if target.Some? && target.value - now > 0 {
        timeLeft := Decompose(target.value - now);
      } else {
        isExpired := true;
      }
    }
  }
}
