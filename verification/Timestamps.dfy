/** Times and INT96 values as 64-bit timestamps: exact, or refused, up to both ends of the range. */
module Timestamps {

  datatype Result<T> = Ok(value: T) | Err

  /** Machine integers: every operation on them is shown not to overflow. */
  newtype int64 = x: int | -0x8000_0000_0000_0000 <= x <= 0x7FFF_FFFF_FFFF_FFFF
  newtype uint64 = x: int | 0 <= x <= 0xFFFF_FFFF_FFFF_FFFF
  newtype uint32 = x: int | 0 <= x <= 0xFFFF_FFFF

  const MAX_INT64: int64 := 0x7FFF_FFFF_FFFF_FFFF
  const MIN_INT64: int64 := -0x8000_0000_0000_0000

  predicate InInt64(x: int) {
    MIN_INT64 as int <= x <= MAX_INT64 as int
  }

  datatype TimeUnit = Second | Millisecond | Microsecond | Nanosecond {
    /** Nanoseconds in a unit. */
    function Divisor(): int64 {
      match this
      case Second => 1_000_000_000
      case Millisecond => 1_000_000
      case Microsecond => 1_000
      case Nanosecond => 1
    }
  }

  /** An instant: seconds since 1970 and the nanoseconds behind them, which are never negative. */
  datatype Time = Time(seconds: int64, nanos: int64)

  ghost predicate ValidTime(t: Time) {
    0 <= t.nanos < 1_000_000_000
  }

  /** Nanoseconds since 1970, as a mathematical integer. */
  ghost function Nanos(t: Time): int {
    t.seconds as int * 1_000_000_000 + t.nanos as int
  }

  // ---------------------------------------------------------------------------------------------
  // Division that truncates toward zero
  // ---------------------------------------------------------------------------------------------

  function TruncDiv(a: int, b: int): int
    requires b > 0
  {
    if a >= 0 then a / b else -(-a / b)
  }

  function TruncRem(a: int, b: int): int
    requires b > 0
  {
    a - TruncDiv(a, b) * b
  }

  lemma {:induction false} Times(a: int, b: int, m: int)
    requires a <= b && m >= 0
    ensures a * m <= b * m
  {}

  /** The quotient and remainder of the smallest number lie above it: division truncates toward zero. */
  lemma {:induction false} LowerEdge(m: int)
    requires m > 1
    ensures var q, r := TruncDiv(MIN_INT64 as int, m), TruncRem(MIN_INT64 as int, m);
            MIN_INT64 as int == q * m + r && -m < r <= 0 && MIN_INT64 as int <= q <= 0
  {
    var a := -(MIN_INT64 as int);
    assert a == a / m * m + a % m;
    Times(1, m, a / m);
  }

  lemma {:induction false} UpperEdge(m: int)
    requires m > 1
    ensures var q, r := MAX_INT64 as int / m, MAX_INT64 as int % m;
            MAX_INT64 as int == q * m + r && 0 <= r < m && 0 <= q <= MAX_INT64 as int
  {
    Times(1, m, MAX_INT64 as int / m);
  }

  // ---------------------------------------------------------------------------------------------
  // A count of large units and a fraction, in small units
  // ---------------------------------------------------------------------------------------------

  /** Where whole * m + fraction stands against the ends of the range. */
  lemma {:induction false} EdgesDecide(whole: int, fraction: int, m: int)
    requires m > 1 && 0 <= fraction < m
    ensures var maxWhole, minWhole := MAX_INT64 as int / m, TruncDiv(MIN_INT64 as int, m);
            && (whole * m + fraction > MAX_INT64 as int <==>
                whole > maxWhole || (whole == maxWhole && fraction > MAX_INT64 as int % m))
            && (whole * m + fraction < MIN_INT64 as int <==>
                  whole < minWhole && (whole != minWhole - 1 || fraction < m + TruncRem(MIN_INT64 as int, m)))
            && (minWhole <= whole <= maxWhole ==> InInt64(whole * m))
            && (whole == minWhole - 1 ==> whole * m == MIN_INT64 as int - TruncRem(MIN_INT64 as int, m) - m)
  {
    UpperEdge(m);
    LowerEdge(m);
    AboveTop(whole, fraction, m, MAX_INT64 as int / m, MAX_INT64 as int % m);
    BelowBottom(whole, fraction, m, TruncDiv(MIN_INT64 as int, m), TruncRem(MIN_INT64 as int, m));
  }

  lemma {:induction false} AboveTop(whole: int, fraction: int, m: int, q: int, r: int)
    requires 0 <= fraction < m && 0 <= r < m
    ensures whole * m + fraction > q * m + r <==> whole > q || (whole == q && fraction > r)
    ensures whole <= q ==> whole * m <= q * m
  {
    if whole > q { Times(q + 1, whole, m); } else if whole < q { Times(whole + 1, q, m); }
  }

  lemma {:induction false} BelowBottom(whole: int, fraction: int, m: int, q: int, r: int)
    requires 0 <= fraction < m && -m < r <= 0
    ensures whole * m + fraction < q * m + r <==> whole < q && (whole != q - 1 || fraction < m + r)
    ensures whole >= q ==> whole * m >= q * m
    ensures whole == q - 1 ==> whole * m == q * m - m
  {
    if whole < q - 1 { Times(whole + 2, q, m); } else if whole >= q { Times(q, whole, m); }
  }

  /** The sum in small units, computed without overflow, or refused when it is out of range. */
  function Combine(whole: int64, fraction: int64, m: int64): (r: Result<int64>)
    requires m > 1 && 0 <= fraction < m
    ensures r.Ok? <==> InInt64(whole as int * m as int + fraction as int)
    ensures r.Ok? ==> r.value as int == whole as int * m as int + fraction as int
  {
    EdgesDecide(whole as int, fraction as int, m as int);
    LowerEdge(m as int);
    UpperEdge(m as int);
    var maxWhole := MAX_INT64 / m;
    if whole > maxWhole || (whole == maxWhole && fraction > MAX_INT64 % m) then Err
    else
      var minWhole := TruncDiv(MIN_INT64 as int, m as int) as int64;
      var minRemainder := TruncRem(MIN_INT64 as int, m as int) as int64;
      var minFraction := m + minRemainder;
      if whole < minWhole then
        if minWhole == MIN_INT64 || whole != minWhole - 1 || fraction < minFraction then Err
        else Ok(MIN_INT64 + fraction - minFraction)
      else Ok(whole * m + fraction)
  }

  // ---------------------------------------------------------------------------------------------
  // Times
  // ---------------------------------------------------------------------------------------------

  /** The instant a timestamp stands for. */
  function ToTime(t: int64, unit: TimeUnit): (r: Time)
    ensures ValidTime(r) && Nanos(r) == t as int * unit.Divisor() as int
  {
    match unit
    case Second => Time(t, 0)
    case Millisecond => Time(t / 1_000, t % 1_000 * 1_000_000)
    case Microsecond => Time(t / 1_000_000, t % 1_000_000 * 1_000)
    case Nanosecond => Time(t / 1_000_000_000, t % 1_000_000_000)
  }

  /** The timestamp of an instant, rounded down to the unit; it is refused when it does not fit. */
  function TimestampFromTime(val: Time, unit: TimeUnit): (r: Result<int64>)
    requires ValidTime(val)
    ensures r.Ok? <==> InInt64(Nanos(val) / unit.Divisor() as int)
    ensures r.Ok? ==> r.value as int == Nanos(val) / unit.Divisor() as int
  {
    match unit
    case Second => Ok(val.seconds)
    case Millisecond => Combine(val.seconds, val.nanos / 1_000_000, 1_000)
    case Microsecond => Combine(val.seconds, val.nanos / 1_000, 1_000_000)
    case Nanosecond => Combine(val.seconds, val.nanos, 1_000_000_000)
  }

  /** A timestamp made into an instant and back is itself, for every 64-bit value and unit. */
  lemma {:induction false} RoundTrip(t: int64, unit: TimeUnit)
    ensures TimestampFromTime(ToTime(t, unit), unit) == Ok(t)
  {
    var d := unit.Divisor() as int;
    assert t as int * d / d == t as int;
  }

  // ---------------------------------------------------------------------------------------------
  // INT96
  // ---------------------------------------------------------------------------------------------

  const JULIAN_UNIX_EPOCH: int64 := 2440588
  const NANOS_PER_DAY: int64 := 86_400_000_000_000

  /** Nanoseconds of the day and a Julian day number. */
  datatype Int96 = Int96(nanos: uint64, days: uint32)

  /** Nanoseconds since 1970, as a mathematical integer. */
  ghost function Int96Nanos(v: Int96): int {
    (v.days as int - JULIAN_UNIX_EPOCH as int) * NANOS_PER_DAY as int + v.nanos as int
  }

  /** The exact nanosecond timestamp, refused when it does not fit or the nanoseconds exceed a day. */
  function ToTimestamp(v: Int96): (r: Result<int64>)
    ensures r.Ok? <==> v.nanos as int < NANOS_PER_DAY as int && InInt64(Int96Nanos(v))
    ensures r.Ok? ==> r.value as int == Int96Nanos(v)
  {
    if v.nanos >= NANOS_PER_DAY as uint64 then Err
    else Combine(v.days as int64 - JULIAN_UNIX_EPOCH, v.nanos as int64, NANOS_PER_DAY)
  }

  /** The instant of an INT96 value. */
  function Int96ToTime(v: Int96): (r: Time)
    ensures ValidTime(r) && Nanos(r) == Int96Nanos(v)
  {
    var days := v.days as int64 - JULIAN_UNIX_EPOCH;
    Time(days * 86400 + (v.nanos / 1_000_000_000) as int64, (v.nanos % 1_000_000_000) as int64)
  }

  /** Both ways from INT96 to a nanosecond timestamp agree: directly, or through an instant. */
  lemma {:induction false} Int96Agrees(v: Int96)
    requires v.nanos as int < NANOS_PER_DAY as int
    ensures ToTimestamp(v) == TimestampFromTime(Int96ToTime(v), Nanosecond)
  {
    var a, b := ToTimestamp(v), TimestampFromTime(Int96ToTime(v), Nanosecond);
    assert Nanos(Int96ToTime(v)) / 1 == Int96Nanos(v);
  }

  /** Day 2440588 begins with the Unix epoch. */
  lemma {:induction false} EpochDay(v: Int96)
    requires v.days == 2440588 && v.nanos == 0
    ensures ToTimestamp(v).Ok? && ToTimestamp(v).value == 0 && Nanos(Int96ToTime(v)) == 0
  {
    assert Int96Nanos(v) == 0;
  }

  /** Every later day begins 86400 seconds after the one before. */
  lemma {:induction false} DaysFollow(days: uint32, nanos: uint64)
    requires days < 0xFFFF_FFFF
    ensures Nanos(Int96ToTime(Int96(nanos, days + 1))) == Nanos(Int96ToTime(Int96(nanos, days))) + 86400 * 1_000_000_000
  {
    assert Int96Nanos(Int96(nanos, days + 1)) == Int96Nanos(Int96(nanos, days)) + NANOS_PER_DAY as int;
  }
}
