/**
 * The weekly interval: the Monday 00:00:00.000 (UTC) that starts the week of a
 * timestamp, and the time left until the next one.
 *
 * Timestamps are integer microseconds counted from an epoch that is itself a
 * Monday at midnight UTC, so the weekday of a timestamp is its day number
 * modulo 7. Dafny's `/` and `%` with a positive divisor round toward minus
 * infinity, as Python's date arithmetic does for instants before the epoch.
 */
module Week {

  const MicrosPerSecond: int := 1_000_000
  const MicrosPerHour: int := 3600 * MicrosPerSecond
  const MicrosPerDay: int := 24 * MicrosPerHour
  const MicrosPerWeek: int := 7 * MicrosPerDay

  /** Monday is 0 and Sunday is 6, as in Python's `datetime.weekday()`. */
  function Weekday(t: int): (d: int)
    ensures 0 <= d < 7
  {
    (t / MicrosPerDay) % 7
  }

  /** Microseconds elapsed since the last midnight. */
  function TimeOfDay(t: int): (r: int)
    ensures 0 <= r < MicrosPerDay
  {
    t % MicrosPerDay
  }

  /** The instants that begin a week: Mondays at 00:00:00.000. */
  predicate IsWeekStart(t: int) {
    Weekday(t) == 0 && TimeOfDay(t) == 0
  }

  lemma WeekStartIsMultipleOfWeek(t: int)
    ensures IsWeekStart(t) <==> t % MicrosPerWeek == 0
  {
    var d := t / MicrosPerDay;
    assert t == d * MicrosPerDay + TimeOfDay(t);
    if IsWeekStart(t) {
      assert d == (d / 7) * 7;
      assert t == (d / 7) * MicrosPerWeek;
    }
    if t % MicrosPerWeek == 0 {
      var k := t / MicrosPerWeek;
      assert t == (7 * k) * MicrosPerDay;
      assert d == 7 * k;
    }
  }

  /** The arithmetic behind `WeekStart`: stepping back `weekday` days and
      truncating to midnight lands on the week multiple below `now`. */
  lemma StepBackToMonday(now: int)
    ensures var shifted := now - Weekday(now) * MicrosPerDay;
            shifted - TimeOfDay(shifted) == (now / MicrosPerWeek) * MicrosPerWeek
  {
    var d := now / MicrosPerDay;
    var q := now % MicrosPerDay;
    assert now == d * MicrosPerDay + q;
    var shifted := now - Weekday(now) * MicrosPerDay;
    assert d - d % 7 == (d / 7) * 7;
    assert shifted == (d / 7) * MicrosPerWeek + q;
    assert TimeOfDay(shifted) == q;
    var k := now / MicrosPerWeek;
    assert now == k * MicrosPerWeek + now % MicrosPerWeek;
    assert d / 7 == k;
  }

  /** `current_week` in the `index` and `get_assignments` views: subtract
      `now.weekday()` days, then set the time of day to 00:00:00.000. */
  function WeekStart(now: int): (w: int)
    ensures IsWeekStart(w)
    ensures w <= now < w + MicrosPerWeek
  {
    StepBackToMonday(now);
    WeekStartIsMultipleOfWeek((now / MicrosPerWeek) * MicrosPerWeek);
    var shifted := now - Weekday(now) * MicrosPerDay;
    shifted - TimeOfDay(shifted)
  }

  /** Only one week start lies in (now - 7 days, now]: every instant of the
      Monday-to-Monday week that begins at `w` maps to `w`. */
  lemma WeekStartUnique(now: int, w: int)
    requires IsWeekStart(w)
    requires w <= now < w + MicrosPerWeek
    ensures WeekStart(now) == w
  {
    StepBackToMonday(now);
    WeekStartIsMultipleOfWeek(w);
    var b := w / MicrosPerWeek;
    assert w == b * MicrosPerWeek;
    assert now / MicrosPerWeek == b;
  }

  /** Two page loads in the same week compute the same interval. */
  lemma SameWeekSameStart(a: int, b: int)
    requires WeekStart(a) <= b < WeekStart(a) + MicrosPerWeek
    ensures WeekStart(b) == WeekStart(a)
  {
    WeekStartUnique(b, WeekStart(a));
  }

  /** The interval never moves backwards as time goes on. */
  lemma WeekStartMonotonic(a: int, b: int)
    requires a <= b
    ensures WeekStart(a) <= WeekStart(b)
  {
    StepBackToMonday(a);
    StepBackToMonday(b);
    assert a / MicrosPerWeek <= b / MicrosPerWeek;
  }

  /** The interval changes exactly at Monday midnight: a week start maps to
      itself, and the instant just before it belongs to the previous week. */
  lemma WeekStartAdvancesAtBoundary(w: int)
    requires IsWeekStart(w)
    ensures WeekStart(w) == w
    ensures WeekStart(w - 1) == w - MicrosPerWeek
  {
    WeekStartUnique(w, w);
    WeekStartIsMultipleOfWeek(w);
    WeekStartIsMultipleOfWeek(w - MicrosPerWeek);
    WeekStartUnique(w - 1, w - MicrosPerWeek);
  }

  /** `next_week`: the start of the following interval. */
  function NextWeek(now: int): (n: int)
    ensures IsWeekStart(n)
    ensures now < n <= now + MicrosPerWeek
  {
    var w := WeekStart(now);
    WeekStartIsMultipleOfWeek(w);
    WeekStartIsMultipleOfWeek(w + MicrosPerWeek);
    w + MicrosPerWeek
  }

  /** `time_remaining = next_week - now`, in microseconds. */
  function TimeRemaining(now: int): (r: int)
    ensures 0 < r <= MicrosPerWeek
  {
    NextWeek(now) - now
  }

  /** `days_remaining`: whole days of the remaining time. */
  function DaysRemaining(now: int): (d: int)
    ensures 0 <= d <= 7
  {
    TimeRemaining(now) / MicrosPerDay
  }

  /** `hours_remaining`: whole hours left over after the whole days. */
  function HoursRemaining(now: int): (h: int)
    ensures 0 <= h <= 23
  {
    (TimeRemaining(now) % MicrosPerDay) / MicrosPerHour
  }

  /** The two displayed figures are the remaining time truncated to the hour. */
  lemma RemainingSplitsIntoDaysAndHours(now: int)
    ensures var d, h := DaysRemaining(now), HoursRemaining(now);
            d * MicrosPerDay + h * MicrosPerHour <= TimeRemaining(now)
            < d * MicrosPerDay + (h + 1) * MicrosPerHour
  {
    var r := TimeRemaining(now);
    assert r == DaysRemaining(now) * MicrosPerDay + r % MicrosPerDay;
    assert r % MicrosPerDay == HoursRemaining(now) * MicrosPerHour + (r % MicrosPerDay) % MicrosPerHour;
  }

  /** Seven whole days remain only at the very instant the week starts. */
  lemma SevenDaysOnlyAtWeekStart(now: int)
    ensures DaysRemaining(now) == 7 <==> IsWeekStart(now)
  {
    if IsWeekStart(now) {
      WeekStartUnique(now, now);
    }
    if DaysRemaining(now) == 7 {
      assert TimeRemaining(now) == MicrosPerWeek;
      assert WeekStart(now) == now;
    }
  }
}
