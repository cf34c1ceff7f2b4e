/** The `Timestamp` arithmetic of `src/data.rs`.  An instant is a count of nanoseconds from 1970. */
module Instants {
  import opened Common

  /** Whole microseconds, rounded down: what a `timestamptz` keeps of an instant. */
  function Micros(t: int): (m: int)
    ensures m * 1000 <= t < m * 1000 + 1000
  {
    t / 1000
  }

  const NANOS_PER_DAY: int := 86_400_000_000_000

  /** The days of the calendar: 1 January -262143 and 31 December 262142, counted from 1970. */
  const FIRST_DAY: int := -96_465_292
  const LAST_DAY: int := 95_026_236

  predicate InCalendar(t: int) {
    FIRST_DAY * NANOS_PER_DAY <= t < (LAST_DAY + 1) * NANOS_PER_DAY
  }

  /** `DateTime<Utc>` */
  type Instant = t: int | InCalendar(t)

  const NANOS_PER_SECOND: int := 1_000_000_000

  /** Whole seconds of a duration, towards zero. */
  function NumSeconds(d: int): (s: int)
    ensures d >= 0 ==> s * 1_000_000_000 <= d < (s + 1) * 1_000_000_000
    ensures d <= 0 ==> (s - 1) * 1_000_000_000 < d <= s * 1_000_000_000
  {
    if d >= 0 then d / NANOS_PER_SECOND else -(-d / NANOS_PER_SECOND)
  }

  datatype TimeInterval = TimeInterval(start: int, end: int) {
    function DurationSeconds(): int {
      NumSeconds(end - start)
    }
  }

  /** An instant (nothing when invalid) and a count of nanoseconds beside it. */
  datatype Stamp = Stamp(datetime: Option<int>, nanosecond: int) {
    predicate Normalized() {
      datetime.Some? && datetime.value % 1000 == 0 && 0 <= nanosecond <= 999
    }

    /** `Timestamp::value` */
    function Value(): int {
      if datetime.None? then -1 else Micros(datetime.value) * 1000 + nanosecond
    }

    /** `partial_cmp` of two valid timestamps: less than. */
    predicate Before(other: Stamp)
      requires datetime.Some? && other.datetime.Some?
    {
      datetime.value < other.datetime.value ||
      (datetime.value == other.datetime.value && nanosecond < other.nanosecond)
    }
  }

  /** `Timestamp::new`: nanoseconds outside 0..=999 are carried over to the instant. */
  function New(datetime: int, nanosecond: int): (r: Stamp)
    ensures 0 <= r.nanosecond <= 999 && r.datetime.Some?
    ensures r.Value() == Micros(datetime) * 1000 + nanosecond
    ensures datetime % 1000 == 0 ==> r.Normalized()
  {
    if 0 <= nanosecond <= 999 then Stamp(Some(datetime), nanosecond)
    else
      var carried := nanosecond / 1000;
      Stamp(Some(datetime + carried * 1000), nanosecond - carried * 1000)
  }

  /** `Timestamp::from_nanoseconds`: seconds and microseconds are split off one after the other. */
  function FromNanoseconds(total: int): (r: Stamp)
  {
    var micros := total / 1000;
    Stamp(Some(micros / 1_000_000 * 1_000_000_000 + micros % 1_000_000 * 1000), total % 1000)
  }

  lemma SplitIsExact(total: int)
    ensures FromNanoseconds(total).datetime == Some(Micros(total) * 1000)
  {
    var micros := total / 1000;
    assert micros / 1_000_000 * 1_000_000 + micros % 1_000_000 == micros;
  }

  lemma WholeMicros(m: int)
    ensures m * 1000 % 1000 == 0 && Micros(m * 1000) == m
  {
  }

  /** Splitting a count of nanoseconds and reading the value undo each other, both ways. */
  lemma ValueRoundTrip(total: int, s: Stamp)
    ensures FromNanoseconds(total).Normalized() && FromNanoseconds(total).Value() == total
    ensures s.Normalized() ==> FromNanoseconds(s.Value()) == s
  {
    SplitIsExact(total);
    WholeMicros(Micros(total));
    if s.Normalized() {
      assert Micros(s.Value()) == Micros(s.datetime.value);
      SplitIsExact(s.Value());
    }
  }

  /** The order of normalized timestamps is the order of their values. */
  lemma OrderIsValueOrder(a: Stamp, b: Stamp)
    requires a.Normalized() && b.Normalized()
    ensures a.Before(b) <==> a.Value() < b.Value()
    ensures a == b <==> a.Value() == b.Value()
  {
  }
}
