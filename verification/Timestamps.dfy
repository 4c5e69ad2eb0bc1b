/**
 Dates and storage timestamps, Realm/RLMUtil.hpp.

 `NSTimeInterval` is a double; finite values are modelled as exact reals, so the
 rounding of double arithmetic is not part of this model. Infinities and NaN are.
 */
module Timestamps {
  import opened Outcomes

  const INT64_MAX: int := 0x7FFF_FFFF_FFFF_FFFF
  const INT64_MIN: int := -0x8000_0000_0000_0000
  const INT32_MAX: int := 0x7FFF_FFFF
  const NANOS: int := 1_000_000_000
  /** `NSTimeIntervalSince1970`: the reference date counted from the epoch of timestamps. */
  const EPOCH: int := 978_307_200

  /** Days from the epoch to the beginning of a year, by the calendar. */
  function DaysBefore(year: nat): nat
    requires 1970 <= year
  {
    if year == 1970 then 0
    else
      var leap := (year - 1) % 4 == 0 && ((year - 1) % 100 != 0 || (year - 1) % 400 == 0);
      DaysBefore(year - 1) + if leap then 366 else 365
  }

  lemma {:induction false} LeapDays(year: nat)
    requires 1970 <= year <= 2100
    ensures DaysBefore(year) == 365 * (year - 1970) + (year - 1969) / 4
  {
    if year > 1970 {
      LeapDays(year - 1);
    }
  }

  /** The reference date is the beginning of 2001. */
  lemma {:induction false} ReferenceDate()
    ensures EPOCH == DaysBefore(2001) * 24 * 60 * 60
  {
    LeapDays(2001);
  }

  /** Seconds since the reference date. */
  datatype TimeInterval = NaN | NegativeInfinity | PositiveInfinity | Finite(seconds: real)

  /** `realm::Timestamp`, null being `Option.None`. */
  datatype Timestamp = Timestamp(seconds: int, nanoseconds: int) {
    /** The instant denoted, in nanoseconds. */
    function Total(): int {
      seconds * NANOS + nanoseconds
    }

    /** What `realm::Timestamp` requires of its parts. */
    predicate Valid() {
      && INT64_MIN <= seconds <= INT64_MAX
      && -NANOS < nanoseconds < NANOS
      && (seconds > 0 ==> nanoseconds >= 0)
      && (seconds < 0 ==> nanoseconds <= 0)
    }

    /** `realm::Timestamp::operator<=`: seconds first. */
    predicate AtMost(other: Timestamp) {
      seconds < other.seconds || (seconds == other.seconds && nanoseconds <= other.nanoseconds)
    }
  }

  const LATEST := Timestamp(INT64_MAX, NANOS - 1)
  const EARLIEST := Timestamp(INT64_MIN, -NANOS + 1)

  /** A C cast from a floating value to an integer: towards zero. */
  function Truncate(x: real): (n: int)
    ensures x >= 0.0 ==> n as real <= x < n as real + 1.0
    ensures x <= 0.0 ==> n as real - 1.0 < x <= n as real
  {
    if x >= 0.0 then x.Floor else -((-x).Floor)
  }

  /** `RLMTimestampToNSDate` of a timestamp that is not null. */
  function ToInterval(ts: Timestamp): TimeInterval {
    Finite(ts.seconds as real - EPOCH as real + ts.nanoseconds as real / NANOS as real)
  }

  /** The instant a finite interval denotes, in nanoseconds from the epoch, cut towards the reference date. */
  function Instant(t: real): int {
    Truncate(t * NANOS as real) + EPOCH * NANOS
  }

  /** The two guards: dates beyond them are clamped. */
  predicate TooLate(t: real) {
    t >= INT64_MAX as real - EPOCH as real
  }

  predicate TooEarly(t: real) {
    t - EPOCH as real < INT64_MIN as real
  }

  /**
   What converting a date means: clamped outside the guards, else the exact instant cut to nanoseconds.
   (NaN becomes the epoch, an arbitrary choice of the source.)
   */
  ghost predicate Converts(date: TimeInterval, ts: Timestamp) {
    && ts.Valid()
    && match date
       case NaN => ts == Timestamp(0, 0)
       case PositiveInfinity => ts == LATEST
       case NegativeInfinity => ts == EARLIEST
       case Finite(t) =>
         if TooLate(t) then ts == LATEST else if TooEarly(t) then ts == EARLIEST else ts.Total() == Instant(t)
  }

  /** `RLMTimestampForNSDate`; every cast is shown to fit its width. */
  method ForDate(date: Option<TimeInterval>) returns (ts: Option<Timestamp>)
    ensures ts.None? <==> date.None?
    ensures date.Some? ==> Converts(date.value, ts.value)
  {
    if date.None? {
      return None;
    }
    var timeInterval := date.value;
    if timeInterval.NaN? {
      return Some(Timestamp(0, 0));
    }
    if timeInterval.PositiveInfinity?
      || (timeInterval.Finite? && timeInterval.seconds >= INT64_MAX as real - EPOCH as real) {
      return Some(Timestamp(INT64_MAX, NANOS - 1));
    }
    if timeInterval.NegativeInfinity? || timeInterval.seconds - EPOCH as real < INT64_MIN as real {
      return Some(Timestamp(INT64_MIN, -NANOS + 1));
    }
    var t := timeInterval.seconds;
    var seconds := Truncate(t);
    assert INT64_MIN <= seconds <= INT64_MAX;
    var nanoseconds := Truncate((t - seconds as real) * 1_000_000_000.0);
    SplitTruncation(t, seconds, nanoseconds);
    assert -INT32_MAX <= nanoseconds <= INT32_MAX;
    seconds := seconds + EPOCH;
    assert INT64_MIN <= seconds <= INT64_MAX;
    if nanoseconds < 0 && seconds > 0 {
      nanoseconds := nanoseconds + NANOS;
      seconds := seconds - 1;
    }
    return Some(Timestamp(seconds, nanoseconds));
  }

  /** Truncating the whole seconds and then the rest is truncating the nanoseconds. */
  lemma SplitTruncation(t: real, seconds: int, nanoseconds: int)
    requires seconds == Truncate(t)
    requires nanoseconds == Truncate((t - seconds as real) * 1_000_000_000.0)
    ensures -NANOS < nanoseconds < NANOS
    ensures t >= 0.0 ==> seconds >= 0 && nanoseconds >= 0
    ensures t <= 0.0 ==> seconds <= 0 && nanoseconds <= 0
    ensures seconds * NANOS + nanoseconds == Truncate(t * NANOS as real)
  {
  }

  /** A valid timestamp is determined by the instant it denotes, and ordered by it. */
  lemma ValidOrder(a: Timestamp, b: Timestamp)
    requires a.Valid() && b.Valid()
    ensures a.AtMost(b) <==> a.Total() <= b.Total()
    ensures a == b <==> a.Total() == b.Total()
  {
  }

  /** The meaning determines the timestamp. */
  lemma ConvertsUnique(date: TimeInterval, a: Timestamp, b: Timestamp)
    requires Converts(date, a) && Converts(date, b)
    ensures a == b
  {
  }

  lemma TruncateMonotone(x: real, y: real)
    requires x <= y
    ensures Truncate(x) <= Truncate(y)
  {
  }

  /** Between the guards the converted instant stays strictly inside the clamp values. */
  lemma InstantRange(t: real)
    requires !TooLate(t) && !TooEarly(t)
    ensures EARLIEST.Total() < (INT64_MIN + 2 * EPOCH) * NANOS <= Instant(t) < INT64_MAX * NANOS <= LATEST.Total()
  {
  }

  /** Order of dates, infinities included; NaN is unordered. */
  predicate NotAfter(x: TimeInterval, y: TimeInterval) {
    && !x.NaN? && !y.NaN?
    && (x.NegativeInfinity? || y.PositiveInfinity? || (x.Finite? && y.Finite? && x.seconds <= y.seconds) || x == y)
  }

  /** Later dates never get earlier timestamps, both clamps included. */
  lemma {:induction false} ForDateMonotone(x: TimeInterval, y: TimeInterval, a: Timestamp, b: Timestamp)
    requires NotAfter(x, y) && Converts(x, a) && Converts(y, b)
    ensures a.AtMost(b)
  {
    ValidOrder(a, b);
    if x.Finite? && !TooLate(x.seconds) && !TooEarly(x.seconds) {
      InstantRange(x.seconds);
    }
    if y.Finite? && !TooLate(y.seconds) && !TooEarly(y.seconds) {
      InstantRange(y.seconds);
    }
    if x.Finite? && y.Finite? {
      TruncateMonotone(x.seconds * NANOS as real, y.seconds * NANOS as real);
    }
  }

  /** A valid timestamp comes back unchanged exactly when it is between the guards or is one of the clamp values. */
  lemma RoundTripTimestamp(ts: Timestamp, back: Timestamp)
    requires ts.Valid() && Converts(ToInterval(ts), back)
    ensures back == ts <==>
            || ((INT64_MIN + 2 * EPOCH) * NANOS <= ts.Total() && ts.seconds < INT64_MAX)
            || ts == LATEST
            || ts == EARLIEST
  {
  }

  /** A representable timestamp that the lower guard clamps although `int64` seconds could hold it. */
  lemma EarlyTimestampIsClamped(back: Timestamp)
    requires Converts(ToInterval(Timestamp(INT64_MIN + EPOCH, 0)), back)
    ensures Timestamp(INT64_MIN + EPOCH, 0).Valid() && back == EARLIEST != Timestamp(INT64_MIN + EPOCH, 0)
  {
  }

  /** A date between the guards comes back moved by less than a nanosecond, and only towards the reference date. */
  lemma RoundTripDate(t: real, ts: Timestamp)
    requires !TooLate(t) && !TooEarly(t) && Converts(Finite(t), ts)
    ensures var back := ToInterval(ts).seconds;
            && (t >= 0.0 ==> 0.0 <= back <= t)
            && (t <= 0.0 ==> t <= back <= 0.0)
            && -1.0 < (t - back) * NANOS as real < 1.0
  {
  }
}
