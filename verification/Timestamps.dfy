/** Timestamp units and the conversions between them. */
module Timestamps {
  import opened Outcomes
  import opened Numerals

  datatype Timestamp = Micros(micros: i64) | Nanos(nanos: i64)

  /** Rust's `/` on integers: the quotient is rounded toward zero. */
  function TruncDiv(n: int, d: int): int
    requires d > 0
  {
    if n < 0 then -((-n) / d) else n / d
  }

  function ToI64(n: int): Result<i64, ErrorCode> {
    if I64_MIN <= n <= I64_MAX then Ok(n) else Err(InvalidTimestamp)
  }

  /** `checked_mul`: fails exactly when the product does not fit, and otherwise loses nothing. */
  function MicrosToNanos(micros: i64): (r: Result<i64, ErrorCode>)
    ensures r.Ok? <==> -9_223_372_036_854_775 <= micros <= 9_223_372_036_854_775
    ensures r.Ok? ==> NanosToMicros(r.value) == micros
  {
    ToI64(micros * 1000)
  }

  /** Less than a microsecond is lost, toward zero. */
  function NanosToMicros(nanos: i64): (micros: i64)
    ensures nanos >= 0 ==> 0 <= nanos - 1000 * micros < 1000
    ensures nanos <= 0 ==> -1000 < nanos - 1000 * micros <= 0
  {
    TruncDiv(nanos, 1000)
  }

  function AsMicros(ts: Timestamp): i64 {
    match ts
    case Micros(m) => m
    case Nanos(n) => NanosToMicros(n)
  }

  function AsNanos(ts: Timestamp): Result<i64, ErrorCode> {
    match ts
    case Micros(m) => MicrosToNanos(m)
    case Nanos(n) => Ok(n)
  }

  /** A system time, as the duration that separates it from the epoch. */
  datatype SysTime = SysTime(beforeEpoch: bool, distanceNanos: nat)

  /**
    `sys_time_to_duration`: the whole units of `unitNanos` between the time and
    the epoch, counted down before the epoch and up after it.
   */
  function SysTimeToUnits(time: SysTime, unitNanos: nat): int
    requires unitNanos > 0
  {
    if time.beforeEpoch then -(time.distanceNanos / unitNanos) else time.distanceNanos / unitNanos
  }

  /** The instant a system time stands for, in nanoseconds since the epoch. */
  function Instant(time: SysTime): int { if time.beforeEpoch then 0 - time.distanceNanos else time.distanceNanos }

  /** A converted system time is the instant itself in nanos, and less than a microsecond from it in micros. */
  lemma SysTimeIsNear(time: SysTime)
    ensures NanosFromSysTime(time).Ok? <==> -0x8000_0000_0000_0000 <= Instant(time) < 0x8000_0000_0000_0000
    ensures NanosFromSysTime(time).Ok? ==> NanosFromSysTime(time).value == Instant(time)
    ensures MicrosFromSysTime(time).Ok? ==>
      var micros := MicrosFromSysTime(time).value;
      if Instant(time) < 0 then -1000 < Instant(time) - 1000 * micros <= 0
      else 0 <= Instant(time) - 1000 * micros < 1000
  {
  }

  function MicrosFromSysTime(time: SysTime): Result<i64, ErrorCode> { ToI64(SysTimeToUnits(time, 1000)) }

  function NanosFromSysTime(time: SysTime): Result<i64, ErrorCode> { ToI64(SysTimeToUnits(time, 1)) }

  lemma NanosToMicrosMonotone(m: i64, n: i64)
    requires m <= n
    ensures NanosToMicros(m) <= NanosToMicros(n)
  {
  }

  /**
    Reading a system time in micros is reading it in nanos and converting,
    whenever the nanos fit, on both sides of the epoch.
   */
  lemma SysTimeUnitsAgree(time: SysTime)
    ensures NanosFromSysTime(time).Ok? ==> MicrosFromSysTime(time) == Ok(NanosToMicros(NanosFromSysTime(time).value))
    ensures MicrosFromSysTime(time).Err? ==> NanosFromSysTime(time).Err?
  {
  }
}
