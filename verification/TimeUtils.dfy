/** Instants are integer microseconds since the Unix epoch; Asia/Seoul is the fixed offset +09:00. */
module TimeUtils {
  import opened Arithmetic

  const SECOND: int := 1_000_000
  const MINUTE: int := 60 * SECOND
  const HOUR: int := 60 * MINUTE
  const DAY: int := 24 * HOUR
  const SEOUL_OFFSET: int := 9 * HOUR

  /** Number of the Seoul calendar day that holds `t`; day 0 is 1970-01-01. */
  function SeoulDay(t: int): int {
    (t + SEOUL_OFFSET) / DAY
  }

  /** First instant of Seoul day `day`. */
  function SeoulMidnight(day: int): int {
    day * DAY - SEOUL_OFFSET
  }

  function MinuteOfHour(t: int): int {
    ((t + SEOUL_OFFSET) / MINUTE) % 60
  }

  /** `align_to_interval` for the intervals it accepts. */
  function Aligned(t: int, interval: int): int
    requires 1 <= interval <= 60
  {
    t - (MinuteOfHour(t) % interval) * MINUTE - (t + SEOUL_OFFSET) % MINUTE
  }

  /** The local minute count of an aligned instant. */
  lemma AlignedMinutes(t: int, interval: int)
    requires 1 <= interval <= 60
    ensures var minutes := (t + SEOUL_OFFSET) / MINUTE;
            Aligned(t, interval) + SEOUL_OFFSET == (minutes - MinuteOfHour(t) % interval) * MINUTE
  {
  }

  lemma AlignedMinuteOfHour(t: int, interval: int)
    requires 1 <= interval <= 60
    ensures MinuteOfHour(Aligned(t, interval)) == interval * (MinuteOfHour(t) / interval)
  {
    var minutes, m := (t + SEOUL_OFFSET) / MINUTE, MinuteOfHour(t);
    var q := m / interval;
    assert m == interval * q + m % interval;
    ProductGap(interval, q);
    AlignedMinutes(t, interval);
    DivModUnique(Aligned(t, interval) + SEOUL_OFFSET, MINUTE, minutes - m % interval, 0);
    DivModUnique(minutes - m % interval, 60, minutes / 60, interval * q);
  }

  /** Alignment goes back by less than one interval, onto a whole local minute divisible by it. */
  lemma AlignedIsGridStart(t: int, interval: int)
    requires 1 <= interval <= 60
    ensures 0 <= t - Aligned(t, interval) < interval * MINUTE
    ensures (Aligned(t, interval) + SEOUL_OFFSET) % MINUTE == 0
    ensures MinuteOfHour(Aligned(t, interval)) % interval == 0
    ensures Aligned(Aligned(t, interval), interval) == Aligned(t, interval)
  {
    AlignedMinutes(t, interval);
    var back := MinuteOfHour(t) % interval;
    DivModUnique(Aligned(t, interval) + SEOUL_OFFSET, MINUTE, (t + SEOUL_OFFSET) / MINUTE - back, 0);
    AlignedMinuteOfHour(t, interval);
    DivModUnique(MinuteOfHour(Aligned(t, interval)), interval, MinuteOfHour(t) / interval, 0);
  }

  lemma MinuteBetween(minutes: int, interval: int, later: int)
    requires 1 <= interval <= 60 && minutes - minutes % 60 % interval < later <= minutes
    ensures later % 60 % interval != 0
  {
    var m, j := minutes % 60, minutes - later;
    DivModUnique(later, 60, minutes / 60, m - j);
    assert m == interval * (m / interval) + m % interval;
    DivModUnique(m - j, interval, m / interval, m % interval - j);
  }

  /** It is the last such minute: in between, no minute of the hour is divisible by the interval. */
  lemma AlignedIsLast(t: int, interval: int, u: int)
    requires 1 <= interval <= 60 && Aligned(t, interval) < u <= t && (u + SEOUL_OFFSET) % MINUTE == 0
    ensures ((u + SEOUL_OFFSET) / MINUTE) % 60 % interval != 0
  {
    AlignedMinutes(t, interval);
    MinuteBetween((t + SEOUL_OFFSET) / MINUTE, interval, (u + SEOUL_OFFSET) / MINUTE);
  }

  /** `seconds_until_next_seoul_midnight`: whole seconds, at least 1. */
  function SecondsUntilNextSeoulMidnight(t: int): int {
    var left := (SeoulMidnight(SeoulDay(t) + 1) - t) / SECOND;
    if left < 1 then 1 else left
  }

  /** The next Seoul midnight is later than `t`, at most a day away, and starts the next Seoul day. */
  lemma NextMidnight(t: int)
    ensures 0 < SeoulMidnight(SeoulDay(t) + 1) - t <= DAY
    ensures SeoulDay(SeoulMidnight(SeoulDay(t) + 1)) == SeoulDay(t) + 1
    ensures forall u :: SeoulDay(u) > SeoulDay(t) <==> u >= SeoulMidnight(SeoulDay(t) + 1)
  {
  }
}
