/** Timestamp and interval arithmetic: truncating division, one carry, 32-bit hour steps and unsigned
    casts, over a calendar that counts milliseconds. */
module IcuArithmetic {

  // ----- machine arithmetic -----

  const INT64_MAX: int := 0x7fff_ffff_ffff_ffff
  const INT64_MIN: int := -0x8000_0000_0000_0000
  const TWO64: int := 0x1_0000_0000_0000_0000
  const INT32_MAX: int := 0x7fff_ffff
  const INT32_MIN: int := -0x8000_0000

  predicate Fits64(x: int) { INT64_MIN <= x <= INT64_MAX }
  predicate Fits32(x: int) { INT32_MIN <= x <= INT32_MAX }

  /** Division and remainder toward zero. */
  function Quot(x: int, d: int): (q: int)
    requires d > 0
  {
    if x >= 0 then x / d else -((-x) / d)
  }

  function Rem(x: int, d: int): (r: int)
    requires d > 0
  {
    if x >= 0 then x % d else -((-x) % d)
  }

  /** The casts int64 -> uint64, uint64 -> int64 and uint64 -> int32. */
  function ToUnsigned(x: int): (u: int) { x % TWO64 }
  function ToSigned(u: int): (x: int) { if u % TWO64 <= INT64_MAX then u % TWO64 else u % TWO64 - TWO64 }
  function ToInt32(u: int): (x: int)
  {
    var low := u % 0x1_0000_0000;
    if low <= INT32_MAX then low else low - 0x1_0000_0000
  }

  lemma CastsUndo(x: int)
    ensures Fits64(x) ==> ToSigned(ToUnsigned(x)) == x
    ensures Fits32(x) ==> ToInt32(ToUnsigned(x)) == x
  {
    if Fits32(x) {
      var k := x / TWO64;
      assert ToUnsigned(x) == x - k * TWO64;
      assert (x - k * TWO64) % 0x1_0000_0000 == x % 0x1_0000_0000;
    }
  }

  // ----- timestamps, intervals and the calendar -----

  const US_PER_MS: int := 1000
  const MS_PER_SEC: int := 1000
  const MS_PER_MIN: int := 60_000
  const MS_PER_HOUR: int := 3_600_000
  const MS_PER_DAY: int := 86_400_000
  const US_PER_DAY: int := 86_400_000_000

  datatype Result<T> = Ok(value: T) | Error

  datatype Interval = Interval(months: int, days: int, micros: int)

  predicate Finite(v: int)
  {
    v != INT64_MAX && v != -INT64_MAX
  }

  /** The first timestamp whose day starts in range. */
  const FIRST: int := -106_751_991 * US_PER_DAY

  predicate InRange(v: int)
  {
    FIRST <= v < INT64_MAX
  }

  /** Timestamp::GetDate in days; the infinities have days of their own. */
  function DateOf(v: int): (days: int)
  {
    if v == INT64_MAX then INT32_MAX
    else if v == -INT64_MAX then -INT32_MAX
    else if v < 0 then Quot(v + 1, US_PER_DAY) - 1 else Quot(v, US_PER_DAY)
  }

  /** Does the timestamp's day start in range? */
  predicate Convertible(v: int)
  {
    Fits64(DateOf(v) * US_PER_DAY)
  }

  // ----- the calendar -----

  /** How a calendar keeps time: months go by `shift`, and a time is stored through `round`. */
  datatype Clock = Clock(shift: (int, int) -> int, round: int -> int)

  /** The millisecond counts that a double holds one by one. */
  const MANTISSA: int := 0x20_0000_0000_0000

  predicate Representable(ms: int)
  {
    -MANTISSA <= ms <= MANTISSA
  }

  /** No months are no change; representable times are stored exactly, and no other time is stored
      as one strictly inside their range. */
  ghost predicate Faithful(c: Clock)
  {
    (forall t :: c.shift(t, 0) == t) &&
    (forall t :: Representable(t) ==> c.round(t) == t) &&
    (forall t :: t < -MANTISSA ==> c.round(t) <= -MANTISSA) &&
    (forall t :: t > MANTISSA ==> c.round(t) >= MANTISSA)
  }

  /** The distance between neighbouring doubles around x. */
  function Ulp(x: int): (u: int)
    ensures u > 0 && (Representable(x) ==> u == 1)
    ensures !Representable(x) ==> u >= 2 && (x > (MANTISSA / 2) * u || x < -(MANTISSA / 2) * u)
    decreases if x < 0 then -x else x
  {
    if Representable(x) then 1 else 2 * Ulp(((if x < 0 then -x else x) + 1) / 2)
  }

  /** The nearest multiple of u, a tie going to the even one. */
  function RoundTo(x: int, u: int): (d: int)
    requires u > 0
  {
    var q, r := x / u, x % u;
    if 2 * r < u || (2 * r == u && q % 2 == 0) then q * u else (q + 1) * u
  }

  /** The double nearest to x. */
  function ToDouble(x: int): (d: int)
  {
    RoundTo(x, Ulp(x))
  }

  lemma Scaled(a: int, b: int, u: int)
    requires a <= b && u > 0
    ensures a * u <= b * u
  {
  }

  /** Rounding does not cross a multiple of the unit. */
  lemma RoundToBounds(x: int, u: int, k: int)
    requires u > 0
    ensures x > k * u ==> RoundTo(x, u) >= k * u
    ensures x < k * u ==> RoundTo(x, u) <= k * u
  {
    var q := x / u;
    assert q * u + x % u == x && 0 <= x % u < u;
    if q < k {
      Scaled(q + 1, k, u);
    } else {
      Scaled(k, q, u);
    }
  }

  /** A calendar that keeps its time in a double is faithful. */
  lemma DoublesAreFaithful(shift: (int, int) -> int)
    requires forall t :: shift(t, 0) == t
    ensures Faithful(Clock(shift, ToDouble))
  {
    var c := Clock(shift, ToDouble);
    forall t ensures Representable(t) ==> ToDouble(t) == t {
      if Representable(t) { assert Ulp(t) == 1 && t / 1 == t && t % 1 == 0; }
    }
    forall t | !Representable(t)
      ensures t < -MANTISSA ==> ToDouble(t) <= -MANTISSA
      ensures t > MANTISSA ==> ToDouble(t) >= MANTISSA
    {
      var u := Ulp(t);
      RoundToBounds(t, u, MANTISSA / 2);
      RoundToBounds(t, u, -(MANTISSA / 2));
    }
  }

  /** The stand-in for ICU: time in milliseconds, to which a unit is added linearly. */
  class Calendar {
    const clock: Clock
    var millis: int

    constructor (clock: Clock)
      ensures this.clock == clock
    {
      this.clock := clock;
      millis := 0;
    }

    method Set(ms: int)
      modifies this
      ensures millis == clock.round(ms)
    {
      millis := clock.round(ms);
    }

    method Add(unit: int, n: int)
      requires Fits32(n)
      modifies this
      ensures millis == clock.round(old(millis) + n * unit)
    {
      millis := clock.round(millis + n * unit);
    }

    method AddMonths(n: int)
      modifies this
      ensures millis == clock.shift(old(millis), n)
    {
      millis := clock.shift(millis, n);
    }

    /** fieldDifference: the whole units toward `when`, by which the calendar moves. */
    method Difference(when: int, unit: int) returns (n: int)
      requires unit > 0
      modifies this
      ensures (n, millis) == Toward(clock, old(millis), when, unit)
    {
      n := Quot(when - millis, unit);
      millis := clock.round(millis + n * unit);
    }
  }

  function Toward(c: Clock, ms: int, when: int, unit: int): (r: (int, int))
    requires unit > 0
  {
    var n := Quot(when - ms, unit);
    (n, c.round(ms + n * unit))
  }

  // ----- adding an interval -----

  /** The calendar after some hours have been added in steps that fit 32 bits. */
  function Hours(c: Clock, ms: int, hours: int): (ms': int)
    decreases if hours < 0 then -hours else hours
  {
    if hours > INT32_MAX then Hours(c, c.round(ms + INT32_MAX * MS_PER_HOUR), hours - INT32_MAX)
    else if hours < INT32_MIN then Hours(c, c.round(ms + INT32_MIN * MS_PER_HOUR), hours - INT32_MIN)
    else if hours == 0 then ms
    else c.round(ms + hours * MS_PER_HOUR)
  }

  /** CalendarAddHour adds any number of hours, each step fitting 32 bits. */
  method CalendarAddHour(cal: Calendar, hours: int)
    requires Fits64(hours)
    modifies cal
    ensures cal.millis == Hours(cal.clock, old(cal.millis), hours)
  {
    var left := hours;
    ghost var total := Hours(cal.clock, cal.millis, hours);
    if left >= 0 {
      while left > 0
        invariant total == if left > 0 then Hours(cal.clock, cal.millis, left) else cal.millis
        decreases left
      {
        cal.Add(MS_PER_HOUR, if left > INT32_MAX then INT32_MAX else left);
        left := left - INT32_MAX;
      }
    } else {
      while left < 0
        invariant total == if left < 0 then Hours(cal.clock, cal.millis, left) else cal.millis
        decreases -left
      {
        cal.Add(MS_PER_HOUR, if left < INT32_MIN then INT32_MIN else left);
        left := left - INT32_MIN;
      }
    }
  }

  /** Between representable times the steps add up. */
  lemma {:induction false} HoursAddUp(c: Clock, ms: int, hours: int)
    requires Faithful(c) && Representable(ms) && Representable(ms + hours * MS_PER_HOUR)
    ensures Hours(c, ms, hours) == ms + hours * MS_PER_HOUR
    decreases if hours < 0 then -hours else hours
  {
    if hours > INT32_MAX {
      HoursAddUp(c, ms + INT32_MAX * MS_PER_HOUR, hours - INT32_MAX);
    } else if hours < INT32_MIN {
      HoursAddUp(c, ms + INT32_MIN * MS_PER_HOUR, hours - INT32_MIN);
    }
  }

  /** The sub-day part of an interval, broken into units. */
  datatype Units = Units(ms: int, s: int, m: int, h: int)

  function UnitsOf(ms: int): (u: Units)
  {
    var s := Quot(ms, 1000);
    var m := Quot(s, 60);
    Units(Rem(ms, 1000), Rem(s, 60), Rem(m, 60), Quot(m, 60))
  }

  /** The units add up to the whole, all on the same side of zero, and fit 32 bits. */
  lemma UnitsAddUp(ms: int)
    ensures var u := UnitsOf(ms);
            u.ms + u.s * MS_PER_SEC + u.m * MS_PER_MIN + u.h * MS_PER_HOUR == ms &&
            (ms >= 0 ==> u.ms >= 0 && u.s >= 0 && u.m >= 0 && u.h >= 0) &&
            (ms <= 0 ==> u.ms <= 0 && u.s <= 0 && u.m <= 0 && u.h <= 0) &&
            Fits32(u.ms) && Fits32(u.s) && Fits32(u.m) && (Fits64(ms) ==> Fits64(u.h))
  {
  }

  /** The units added from lowest to highest. */
  function Rising(c: Clock, ms: int, u: Units): (ms': int)
  {
    Hours(c, c.round(c.round(c.round(ms + u.ms) + u.s * MS_PER_SEC) + u.m * MS_PER_MIN), u.h)
  }

  /** The units added from highest to lowest. */
  function Falling(c: Clock, ms: int, u: Units): (ms': int)
  {
    c.round(c.round(c.round(Hours(c, ms, u.h) + u.m * MS_PER_MIN) + u.s * MS_PER_SEC) + u.ms)
  }

  /** Between representable times either order adds up. */
  lemma SubDayAddsUp(c: Clock, ms: int, part: int)
    requires Faithful(c) && Representable(ms) && Representable(ms + part)
    ensures Rising(c, ms, UnitsOf(part)) == ms + part == Falling(c, ms, UnitsOf(part))
  {
    hide UnitsOf, Hours;
    UnitsAddUp(part);
    var u := UnitsOf(part);
    HoursAddUp(c, ms, u.h);
    HoursAddUp(c, ms + u.ms + u.s * MS_PER_SEC + u.m * MS_PER_MIN, u.h);
  }

  /** The microseconds of the sum after the single carry, and what the carry adds to the milliseconds. */
  function Carry(us: int): (r: (int, int))
  {
    if us >= US_PER_MS then (us - US_PER_MS, 1)
    else if us < 0 then (us + US_PER_MS, -1)
    else (us, 0)
  }

  function CarryOf(v: int, micros: int): (r: (int, int))
  {
    Carry(Rem(v, US_PER_MS) + Rem(micros, US_PER_MS))
  }

  /** The milliseconds that the calendar is set to. */
  function FirstMillis(v: int, micros: int): (ms: int)
  {
    Quot(v, US_PER_MS) + CarryOf(v, micros).1
  }

  /** TryGetTime on a calendar at `ms`. */
  function GetTime(ms: int, micros: int): (r: Result<int>)
  {
    var us := ms * US_PER_MS;
    if !Fits64(us) || !Fits64(us + ToSigned(micros)) || !Convertible(us + ToSigned(micros)) then Error
    else Ok(us + ToSigned(micros))
  }

  /** One of the interval's parts is negative: they are added from lowest to highest. */
  predicate Downward(i: Interval)
  {
    i.months < 0 || i.days < 0 || i.micros < 0
  }

  /** What the calendar has moved to when the interval's parts have been added. */
  function Moved(c: Clock, ms: int, i: Interval): (ms': int)
  {
    var u := UnitsOf(Quot(i.micros, US_PER_MS));
    if Downward(i) then c.round(c.shift(Rising(c, ms, u), i.months) + i.days * MS_PER_DAY)
    else Falling(c, c.round(c.shift(ms, i.months) + i.days * MS_PER_DAY), u)
  }

  /** timestamp + interval. */
  function Sum(c: Clock, v: int, i: Interval): (r: Result<int>)
  {
    if !Finite(v) then Ok(v)
    else
      var ms := FirstMillis(v, i.micros);
      if !Fits64(ms * US_PER_MS) || !Convertible(ms * US_PER_MS) then Error
      else GetTime(Moved(c, c.round(ms), i), ToUnsigned(CarryOf(v, i.micros).0))
  }

  /** ICUCalendarAdd::Operation. */
  method AddInterval(cal: Calendar, v: int, i: Interval) returns (r: Result<int>)
    requires Fits64(v) && Fits32(i.months) && Fits32(i.days) && Fits64(i.micros)
    modifies cal
    ensures r == Sum(cal.clock, v, i)
  {
    hide Moved, Convertible, ToSigned;
    if !Finite(v) { return Ok(v); }
    var millis, micros := Quot(v, US_PER_MS), Rem(v, US_PER_MS);
    micros := micros + Rem(i.micros, US_PER_MS);
    if micros >= US_PER_MS {
      micros := micros - US_PER_MS;
      millis := millis + 1;
    } else if micros < 0 {
      micros := micros + US_PER_MS;
      millis := millis - 1;
    }
    if !Fits64(millis * US_PER_MS) || !Convertible(millis * US_PER_MS) { return Error; }
    cal.Set(millis);
    AddParts(cal, i);
    r := GetTime(cal.millis, ToUnsigned(micros));
  }

  /** The interval's parts, from lowest to highest if one is negative, else from highest to lowest. */
  method AddParts(cal: Calendar, i: Interval)
    requires Fits32(i.months) && Fits32(i.days) && Fits64(i.micros)
    modifies cal
    ensures cal.millis == Moved(cal.clock, old(cal.millis), i)
  {
    hide Rising, Falling, Rem;
    var h := Quot(i.micros, US_PER_MS);
    UnitsAddUp(h);
    assert Fits64(h);
    hide Quot;
    ghost var u := UnitsOf(h);
    var ms := Rem(h, MS_PER_SEC);
    h := Quot(h, MS_PER_SEC);
    var s := Rem(h, 60);
    h := Quot(h, 60);
    var m := Rem(h, 60);
    h := Quot(h, 60);
    assert Units(ms, s, m, h) == u;
    if i.months < 0 || i.days < 0 || i.micros < 0 {
      AddRising(cal, Units(ms, s, m, h));
      cal.AddMonths(i.months);
      cal.Add(MS_PER_DAY, i.days);
    } else {
      cal.AddMonths(i.months);
      cal.Add(MS_PER_DAY, i.days);
      AddFalling(cal, Units(ms, s, m, h));
    }
  }

  method AddRising(cal: Calendar, u: Units)
    requires Fits32(u.ms) && Fits32(u.s) && Fits32(u.m) && Fits64(u.h)
    modifies cal
    ensures cal.millis == Rising(cal.clock, old(cal.millis), u)
  {
    hide Hours;
    cal.Add(1, u.ms);
    cal.Add(MS_PER_SEC, u.s);
    cal.Add(MS_PER_MIN, u.m);
    CalendarAddHour(cal, u.h);
  }

  method AddFalling(cal: Calendar, u: Units)
    requires Fits32(u.ms) && Fits32(u.s) && Fits32(u.m) && Fits64(u.h)
    modifies cal
    ensures cal.millis == Falling(cal.clock, old(cal.millis), u)
  {
    hide Hours;
    CalendarAddHour(cal, u.h);
    cal.Add(MS_PER_MIN, u.m);
    cal.Add(MS_PER_SEC, u.s);
    cal.Add(1, u.ms);
  }

  // ----- when and how addition is exact -----

  lemma RemQuot(x: int, d: int)
    requires d > 0
    ensures Quot(x, d) * d + Rem(x, d) == x && -d < Rem(x, d) < d
    ensures (x >= 0 ==> Rem(x, d) >= 0) && (x <= 0 ==> Rem(x, d) <= 0)
  {
    if x < 0 { assert ((-x) / d) * d + (-x) % d == -x; } else { assert (x / d) * d + x % d == x; }
  }

  lemma ConvertibleIff(v: int)
    requires Fits64(v)
    ensures Convertible(v) <==> InRange(v)
  {
  }

  /** Where the calendar is between the sub-day part and the days, and at the end. */
  function MiddleMillis(v: int, i: Interval): (ms: int)
  {
    FirstMillis(v, i.micros) + if Downward(i) then Quot(i.micros, US_PER_MS) else i.days * MS_PER_DAY
  }

  function LastMillis(v: int, i: Interval): (ms: int)
  {
    FirstMillis(v, i.micros) + Quot(i.micros, US_PER_MS) + i.days * MS_PER_DAY
  }

  /** The calendar stays among the times that a double holds: where it starts, in the middle, at the end. */
  predicate StaysRepresentable(v: int, i: Interval)
  {
    Representable(FirstMillis(v, i.micros)) && Representable(MiddleMillis(v, i)) && Representable(LastMillis(v, i))
  }

  lemma MovedAddsUp(c: Clock, v: int, i: Interval)
    requires Faithful(c) && i.months == 0 && StaysRepresentable(v, i)
    ensures Moved(c, c.round(FirstMillis(v, i.micros)), i) == LastMillis(v, i)
  {
    hide FirstMillis, Rising, Falling, UnitsOf, Quot;
    var ms, part := FirstMillis(v, i.micros), Quot(i.micros, US_PER_MS);
    if Downward(i) {
      SubDayAddsUp(c, ms, part);
    } else {
      SubDayAddsUp(c, ms + i.days * MS_PER_DAY, part);
    }
  }

  /** The carry loses nothing. */
  lemma CarryAddsUp(v: int, i: Interval)
    ensures var us := CarryOf(v, i.micros).0;
            LastMillis(v, i) * US_PER_MS + us == v + i.days * US_PER_DAY + i.micros &&
            -US_PER_MS < us < US_PER_MS &&
            (us < 0 <==> Rem(v, US_PER_MS) + Rem(i.micros, US_PER_MS) < -US_PER_MS)
  {
    hide Quot, Rem;
    RemQuot(v, US_PER_MS);
    RemQuot(i.micros, US_PER_MS);
  }

  /** Representable times are in range. */
  lemma RepresentableInRange(ms: int)
    requires Representable(ms)
    ensures Fits64(ms * US_PER_MS) && Convertible(ms * US_PER_MS)
  {
    ConvertibleIff(ms * US_PER_MS);
  }

  /** The first millisecond past the range. */
  const TOP: int := 9_223_372_036_854_776_000

  /** The checks when the time is taken out of the calendar. */
  lemma LastCheck(ms: int, us: int)
    requires -US_PER_MS < us < US_PER_MS
    ensures var sum := ms * US_PER_MS + us;
            GetTime(ms, ToUnsigned(us)) ==
            if InRange(sum) && !(us < 0 && sum > TOP - US_PER_MS) then Ok(sum) else Error
  {
    hide ToSigned, ToUnsigned, Convertible;
    CastsUndo(us);
    var sum := ms * US_PER_MS + us;
    if Fits64(sum) { ConvertibleIff(sum); }
  }

  /** As long as the calendar stays among the times that its doubles hold, adding days and microseconds
      of any sign gives exactly the sum: two truncated remainders, one carry, the split into units and
      the 32-bit steps lose nothing. Infinite timestamps stay. */
  lemma AdditionIsExact(c: Clock, v: int, i: Interval)
    requires Faithful(c) && i.months == 0 && (Finite(v) ==> StaysRepresentable(v, i))
    ensures Sum(c, v, i) == Ok(if Finite(v) then v + i.days * US_PER_DAY + i.micros else v)
  {
    hide FirstMillis, MiddleMillis, LastMillis, CarryOf, Moved, Convertible, GetTime, ToUnsigned, Quot, Rem;
    if Finite(v) {
      RepresentableInRange(FirstMillis(v, i.micros));
      MovedAddsUp(c, v, i);
      CarryAddsUp(v, i);
      LastCheck(LastMillis(v, i), CarryOf(v, i.micros).0);
    }
  }

  /** Timestamps a few milliseconds inside the representable ones. */
  predicate Safe(v: int)
  {
    -(MANTISSA - 4) * US_PER_MS <= v <= (MANTISSA - 4) * US_PER_MS
  }

  lemma SafeSum(v: int, micros: int)
    requires Safe(v) && Safe(v + micros)
    ensures Finite(v) && StaysRepresentable(v, Interval(0, 0, micros))
  {
    hide Quot, Rem;
    RemQuot(v, US_PER_MS);
    RemQuot(micros, US_PER_MS);
  }

  /** Adding microseconds of either sign, from and to a safe timestamp, gives the sum. */
  lemma SubDayAddition(c: Clock, v: int, micros: int)
    requires Faithful(c) && Safe(v) && Safe(v + micros)
    ensures Sum(c, v, Interval(0, 0, micros)) == Ok(v + micros)
  {
    hide StaysRepresentable, Sum;
    SafeSum(v, micros);
    AdditionIsExact(c, v, Interval(0, 0, micros));
  }

  // ----- subtracting an interval -----

  /** The negated interval, in 32- and 64-bit arithmetic. */
  function Negated(i: Interval): (n: Interval)
  {
    Interval(ToInt32(ToUnsigned(-i.months)), ToInt32(ToUnsigned(-i.days)), ToSigned(ToUnsigned(-i.micros)))
  }

  /** timestamp - interval adds the negated interval. */
  function Less(c: Clock, v: int, i: Interval): (r: Result<int>)
  {
    Sum(c, v, Negated(i))
  }

  /** ICUCalendarSub::Operation for an interval. */
  method SubtractInterval(cal: Calendar, v: int, i: Interval) returns (r: Result<int>)
    requires Fits64(v) && Fits32(i.months) && Fits32(i.days) && Fits64(i.micros)
    modifies cal
    ensures r == Less(cal.clock, v, i)
  {
    hide Sum, ToUnsigned, ToSigned, ToInt32;
    NegatedIs(i);
    var months, days := ToInt32(ToUnsigned(-i.months)), ToInt32(ToUnsigned(-i.days));
    var micros := ToSigned(ToUnsigned(-i.micros));
    r := AddInterval(cal, v, Interval(months, days, micros));
  }

  /** What the negations are: the least number of each width is its own. */
  lemma NegatedIs(i: Interval)
    requires Fits32(i.months) && Fits32(i.days) && Fits64(i.micros)
    ensures Negated(i).months == if i.months == INT32_MIN then INT32_MIN else -i.months
    ensures Negated(i).days == if i.days == INT32_MIN then INT32_MIN else -i.days
    ensures Negated(i).micros == if i.micros == INT64_MIN then INT64_MIN else -i.micros
  {
    hide ToUnsigned, ToSigned, ToInt32;
    CastsUndo(-i.months);
    CastsUndo(-i.days);
    CastsUndo(-i.micros);
    LeastNegates();
  }

  lemma LeastNegates()
    ensures ToSigned(ToUnsigned(-INT64_MIN)) == INT64_MIN && ToInt32(ToUnsigned(-INT32_MIN)) == INT32_MIN
  {
  }

  /** Whatever the calendar does, the microseconds below the millisecond add up. */
  lemma SumModulo(c: Clock, v: int, i: Interval) returns (k: int)
    requires Finite(v) && Sum(c, v, i).Ok?
    ensures Sum(c, v, i).value == v + i.micros + k * US_PER_MS
  {
    hide Moved, Convertible, ToSigned, ToUnsigned, Quot, Rem;
    RemQuot(v, US_PER_MS);
    RemQuot(i.micros, US_PER_MS);
    var carry := CarryOf(v, i.micros);
    CastsUndo(carry.0);
    var ms := Moved(c, c.round(FirstMillis(v, i.micros)), i);
    k := ms - carry.1 - Quot(v, US_PER_MS) - Quot(i.micros, US_PER_MS);
  }

  /** Subtracting days and microseconds of any sign is exact, while the calendar stays among the times that
      its doubles hold, if and only if both have a negation; the days then have one. */
  lemma IntervalSubtraction(c: Clock, v: int, i: Interval)
    requires Faithful(c) && i.months == 0 && Fits32(i.days) && Fits64(i.micros) && Fits64(v) && Finite(v)
    requires StaysRepresentable(v, Interval(0, -i.days, -i.micros))
    ensures Less(c, v, i) == Ok(v - i.days * US_PER_DAY - i.micros) <==> i.days != INT32_MIN && i.micros != INT64_MIN
  {
    hide Sum, Negated, StaysRepresentable;
    NegatedIs(i);
    FewDays(v, i);
    if i.micros != INT64_MIN {
      AdditionIsExact(c, v, Negated(i));
    } else if Less(c, v, i).Ok? {
      var k := SumModulo(c, v, Negated(i));
      assert Less(c, v, i).value - v - INT64_MIN == US_PER_MS * k;
    }
  }

  /** So many days are not representable. */
  lemma FewDays(v: int, i: Interval)
    requires Fits64(i.micros) && StaysRepresentable(v, Interval(0, -i.days, -i.micros))
    ensures i.days != INT32_MIN
  {
    hide Rem;
    RemQuot(-i.micros, US_PER_MS);
  }

  /** Subtracting undoes adding, if and only if the microseconds have a negation in 64 bits. */
  lemma SubtractUndoesAdd(c: Clock, v: int, micros: int)
    requires Faithful(c) && Fits64(micros) && Safe(v) && Safe(v + micros)
    ensures Sum(c, v, Interval(0, 0, micros)) == Ok(v + micros)
    ensures Less(c, v + micros, Interval(0, 0, micros)) == Ok(v) <==> micros != INT64_MIN
  {
    hide Sum, Negated, StaysRepresentable;
    SubDayAddition(c, v, micros);
    SafeSum(v + micros, -micros);
    IntervalSubtraction(c, v + micros, Interval(0, 0, micros));
  }

  /** The negation that does not fit: subtracting the least interval from its sum is an error or a
      timestamp far before the epoch. */
  lemma LeastIntervalIsNotUndone(c: Clock)
    requires Faithful(c)
    ensures var v := 1_000_000_000_000_000_000;
            Sum(c, v, Interval(0, 0, INT64_MIN)) == Ok(v + INT64_MIN) &&
            Less(c, v + INT64_MIN, Interval(0, 0, INT64_MIN)) != Ok(v)
  {
    SubtractUndoesAdd(c, 1_000_000_000_000_000_000, INT64_MIN);
  }

  // ----- months -----

  /** Months move the calendar by its own rule, before the days: after the sub-day part if a part of the
      interval is negative, else before it. */
  ghost predicate MonthsStay(c: Clock, v: int, i: Interval)
  {
    var ms, part, days := FirstMillis(v, i.micros), Quot(i.micros, US_PER_MS), i.days * MS_PER_DAY;
    Representable(ms) &&
    if i.months < 0 || i.days < 0 || i.micros < 0
    then Representable(ms + part) && Representable(c.shift(ms + part, i.months) + days)
    else Representable(c.shift(ms, i.months) + days) && Representable(c.shift(ms, i.months) + days + part)
  }

  /** The sum with months: `ms` and `us` are the timestamp and the microseconds that were carried over. */
  lemma MonthsInOrder(c: Clock, v: int, i: Interval) returns (ms: int, us: int)
    requires Faithful(c) && Finite(v) && MonthsStay(c, v, i)
    ensures (ms + Quot(i.micros, US_PER_MS)) * US_PER_MS + us == v + i.micros && -US_PER_MS < us < US_PER_MS
    ensures us < 0 <==> Rem(v, US_PER_MS) + Rem(i.micros, US_PER_MS) < -US_PER_MS
    ensures var part, days := Quot(i.micros, US_PER_MS), i.days * MS_PER_DAY;
            Sum(c, v, i) == Ok(us + US_PER_MS *
                               if i.months < 0 || i.days < 0 || i.micros < 0 then c.shift(ms + part, i.months) + days
                               else c.shift(ms, i.months) + days + part)
  {
    hide FirstMillis, CarryOf, Convertible, ToUnsigned, GetTime, Quot, Rem, Rising, Falling, UnitsOf;
    ms, us := FirstMillis(v, i.micros), CarryOf(v, i.micros).0;
    var part, days := Quot(i.micros, US_PER_MS), i.days * MS_PER_DAY;
    CarryAddsUp(v, i);
    RepresentableInRange(ms);
    if i.months < 0 || i.days < 0 || i.micros < 0 {
      SubDayAddsUp(c, ms, part);
      LastCheck(c.shift(ms + part, i.months) + days, us);
    } else {
      SubDayAddsUp(c, c.shift(ms, i.months) + days, part);
      LastCheck(c.shift(ms, i.months) + days + part, us);
    }
  }

  /** Months alone: adding moves the calendar forward by them, subtracting moves it back, unless they have no
      negation. */
  lemma MonthsAlone(c: Clock, v: int, months: int)
    requires Faithful(c) && Finite(v) && Fits32(months) && Representable(v / US_PER_MS)
    requires Representable(c.shift(v / US_PER_MS, months)) && Representable(c.shift(v / US_PER_MS, -months))
    ensures Sum(c, v, Interval(months, 0, 0)) == Ok(c.shift(v / US_PER_MS, months) * US_PER_MS + v % US_PER_MS)
    ensures Less(c, v, Interval(months, 0, 0)) ==
            Ok(c.shift(v / US_PER_MS, if months == INT32_MIN then months else -months) * US_PER_MS + v % US_PER_MS)
  {
    hide Sum, Negated;
    MonthsMove(c, v, months);
    if months != INT32_MIN { MonthsMove(c, v, -months); }
    NegatedIs(Interval(months, 0, 0));
  }

  lemma MonthsMove(c: Clock, v: int, months: int)
    requires Faithful(c) && Finite(v) && Representable(v / US_PER_MS) && Representable(c.shift(v / US_PER_MS, months))
    ensures Sum(c, v, Interval(months, 0, 0)) == Ok(c.shift(v / US_PER_MS, months) * US_PER_MS + v % US_PER_MS)
  {
    hide Sum, FirstMillis;
    FloorMillis(v);
    var ms, us := MonthsInOrder(c, v, Interval(months, 0, 0));
    RemQuot(v, US_PER_MS);
    assert ms * US_PER_MS + us == v && us >= 0;
  }

  // ----- infinite timestamps -----

  /** The infinities are the greatest 64-bit number and its negation; no interval moves them. */
  lemma InfinityStays(c: Clock, i: Interval)
    ensures Sum(c, 9_223_372_036_854_775_807, i) == Less(c, 9_223_372_036_854_775_807, i) ==
            Ok(9_223_372_036_854_775_807)
    ensures Sum(c, -9_223_372_036_854_775_807, i) == Less(c, -9_223_372_036_854_775_807, i) ==
            Ok(-9_223_372_036_854_775_807)
  {
  }

  /** Only the difference with an infinite timestamp is an error. */
  lemma InfiniteDifference(c: Clock, end: int, start: int)
    ensures Difference(c, end, start) == Error <==>
            end in {9_223_372_036_854_775_807, -9_223_372_036_854_775_807} ||
            start in {9_223_372_036_854_775_807, -9_223_372_036_854_775_807}
  {
  }

  // ----- beyond the representable times -----

  /** The double next to a millisecond count in range: the count itself if it is even or small. */
  lemma DoubleNear(ms: int)
    requires -2 * MANTISSA <= ms <= 2 * MANTISSA
    ensures ToDouble(ms) == ms <==> Representable(ms) || ms % 2 == 0
    ensures ms - 1 <= ToDouble(ms) <= ms + 1 && ToDouble(ToDouble(ms)) == ToDouble(ms)
  {
    hide Ulp;
    UlpNear(ms);
    UlpNear(ToDouble(ms));
  }

  lemma UlpNear(ms: int)
    requires -2 * MANTISSA <= ms <= 2 * MANTISSA
    ensures Ulp(ms) == if Representable(ms) then 1 else 2
  {
  }

  /** Adding nothing: only the time's storage in the calendar counts. */
  lemma NothingMoves(c: Clock, ms: int)
    requires c.round(ms) == ms && c.shift(ms, 0) == ms
    ensures Moved(c, ms, Interval(0, 0, 0)) == ms
  {
    assert UnitsOf(0) == Units(0, 0, 0, 0);
  }

  lemma FloorMillis(v: int)
    ensures FirstMillis(v, 0) == v / US_PER_MS && CarryOf(v, 0).0 == v % US_PER_MS
  {
  }

  lemma NothingAdded(shift: (int, int) -> int, v: int)
    requires InRange(v) && forall t :: shift(t, 0) == t
    ensures -2 * MANTISSA <= v / US_PER_MS <= 2 * MANTISSA
    ensures var ms, us := ToDouble(v / US_PER_MS), v % US_PER_MS;
            Sum(Clock(shift, ToDouble), v, Interval(0, 0, 0)) ==
            if InRange(ms * US_PER_MS + us) then Ok(ms * US_PER_MS + us) else Error
  {
    hide ToDouble, Moved, GetTime, FirstMillis, CarryOf, Convertible, ToUnsigned;
    var ms, c := v / US_PER_MS, Clock(shift, ToDouble);
    FloorMillis(v);
    ConvertibleIff(ms * US_PER_MS);
    DoubleNear(ms);
    NothingMoves(c, ToDouble(ms));
    LastCheck(ToDouble(ms), v % US_PER_MS);
  }

  /** On ICU's doubles, adding nothing to a timestamp in range gives it back exactly when its
      millisecond is representable or even. */
  lemma NothingAddedIff(shift: (int, int) -> int, v: int)
    requires InRange(v) && forall t :: shift(t, 0) == t
    ensures Sum(Clock(shift, ToDouble), v, Interval(0, 0, 0)) == Ok(v) <==>
            Representable(v / US_PER_MS) || (v / US_PER_MS) % 2 == 0
  {
    hide Sum, ToDouble;
    NothingAdded(shift, v);
    DoubleNear(v / US_PER_MS);
  }

  /** The millisecond 2^53 + 1 becomes 2^53. */
  lemma RoundingLosesAMillisecond(shift: (int, int) -> int)
    requires forall t :: shift(t, 0) == t
    ensures Sum(Clock(shift, ToDouble), 9_007_199_254_740_993_000, Interval(0, 0, 0)) == Ok(9_007_199_254_740_992_000)
  {
    hide Sum;
    NothingAdded(shift, 9_007_199_254_740_993_000);
    assert Ulp(MANTISSA + 1) == 2 && ToDouble(MANTISSA + 1) == MANTISSA;
  }

  // ----- the range checks, on a calendar of exact integers -----

  /** Every time is stored as it is. */
  ghost predicate ExactClock(c: Clock)
  {
    (forall t :: c.shift(t, 0) == t) && (forall t :: c.round(t) == t)
  }

  /** The exact domain of the addition of days and microseconds on such a calendar. */
  predicate Addable(v: int, days: int, micros: int)
  {
    var sum := v + days * US_PER_DAY + micros;
    InRange(sum) &&
    (v > FIRST || v + Rem(micros, US_PER_MS) >= FIRST) && v + Rem(micros, US_PER_MS) < TOP &&
    !(Rem(v, US_PER_MS) + Rem(micros, US_PER_MS) < -US_PER_MS && sum > TOP - US_PER_MS)
  }

  /** The check before the calendar is set. */
  lemma FirstCheck(v: int, micros: int)
    requires Fits64(v) && Finite(v)
    ensures var ms := FirstMillis(v, micros) * US_PER_MS;
            Fits64(ms) && Convertible(ms) <==>
            (v > FIRST || v + Rem(micros, US_PER_MS) >= FIRST) && v + Rem(micros, US_PER_MS) < TOP
  {
    hide Convertible;
    RemQuot(v, US_PER_MS);
    RemQuot(micros, US_PER_MS);
    var ms := FirstMillis(v, micros) * US_PER_MS;
    if Fits64(ms) { ConvertibleIff(ms); }
  }

  lemma {:induction false} HoursExact(c: Clock, ms: int, hours: int)
    requires ExactClock(c)
    ensures Hours(c, ms, hours) == ms + hours * MS_PER_HOUR
    decreases if hours < 0 then -hours else hours
  {
    if hours > INT32_MAX {
      HoursExact(c, ms + INT32_MAX * MS_PER_HOUR, hours - INT32_MAX);
    } else if hours < INT32_MIN {
      HoursExact(c, ms + INT32_MIN * MS_PER_HOUR, hours - INT32_MIN);
    }
  }

  /** On a calendar of integers - doubles play no part here - the checks of the code are exact: without
      months the result is the sum, or an error exactly outside Addable. */
  lemma RangeChecksAreExact(c: Clock, v: int, i: Interval)
    requires ExactClock(c) && Fits64(v) && i.months == 0
    ensures Sum(c, v, i) ==
            if !Finite(v) then Ok(v)
            else if Addable(v, i.days, i.micros) then Ok(v + i.days * US_PER_DAY + i.micros)
            else Error
  {
    hide FirstMillis, LastMillis, CarryOf, Moved, Convertible, GetTime, ToUnsigned, Quot, Rem, InRange;
    if Finite(v) {
      FirstCheck(v, i.micros);
      MovedExact(c, v, i);
      CarryAddsUp(v, i);
      LastCheck(LastMillis(v, i), CarryOf(v, i.micros).0);
    }
  }

  lemma MovedExact(c: Clock, v: int, i: Interval)
    requires ExactClock(c) && i.months == 0
    ensures Moved(c, c.round(FirstMillis(v, i.micros)), i) == LastMillis(v, i)
  {
    hide FirstMillis, Hours, UnitsOf, Quot;
    var ms, u := FirstMillis(v, i.micros), UnitsOf(Quot(i.micros, US_PER_MS));
    UnitsAddUp(Quot(i.micros, US_PER_MS));
    HoursExact(c, ms + u.ms + u.s * MS_PER_SEC + u.m * MS_PER_MIN, u.h);
    HoursExact(c, ms + i.days * MS_PER_DAY, u.h);
  }

  /** So on such a calendar microseconds can be added to a timestamp in range exactly when the sum is. */
  lemma RangeOfSubDayAddition(c: Clock, v: int, micros: int)
    requires ExactClock(c) && InRange(v)
    ensures Sum(c, v, Interval(0, 0, micros)) == if InRange(v + micros) then Ok(v + micros) else Error
  {
    hide Sum;
    RangeChecksAreExact(c, v, Interval(0, 0, micros));
    RemQuot(v, US_PER_MS);
    RemQuot(micros, US_PER_MS);
  }

  // ----- subtracting timestamps -----

  /** SetTime: the calendar is set to the floor, the microseconds above it are returned. */
  method SetTime(cal: Calendar, v: int) returns (micros: int)
    modifies cal
    ensures cal.millis == cal.clock.round(v / US_PER_MS) && micros == v % US_PER_MS
  {
    var millis := Quot(v, US_PER_MS);
    micros := Rem(v, US_PER_MS);
    if micros < 0 {
      millis := millis - 1;
      micros := micros + US_PER_MS;
    }
    cal.Set(millis);
    micros := ToUnsigned(micros);
  }

  /** SubtractField. */
  method SubtractField(cal: Calendar, unit: int, end: int) returns (n: int)
    requires unit > 0
    modifies cal
    ensures (n, cal.millis) == Toward(cal.clock, old(cal.millis), cal.clock.round(Quot(end, US_PER_MS)), unit)
  {
    n := cal.Difference(cal.clock.round(Quot(end, US_PER_MS)), unit);
  }

  /** Must a millisecond be borrowed from the end? The comparison is unsigned. */
  predicate Borrows(end: int, start: int)
  {
    start % US_PER_MS > ToUnsigned(Rem(end, US_PER_MS))
  }

  /** The end's milliseconds, and the microseconds of the difference that go with them. */
  function EndMillis(end: int, start: int): (ms: int)
  {
    Quot(if Borrows(end, start) then end - US_PER_MS else end, US_PER_MS)
  }

  function MicrosApart(end: int, start: int): (us: int)
  {
    Rem(end, US_PER_MS) + (if Borrows(end, start) then US_PER_MS else 0) - start % US_PER_MS
  }

  /** Days, then hours, minutes, seconds and milliseconds from one time toward another. */
  function FieldsApart(c: Clock, from: int, when: int): (r: (int, Units))
  {
    var (d, t1) := Toward(c, from, when, MS_PER_DAY);
    var (h, t2) := Toward(c, t1, when, MS_PER_HOUR);
    var (m, t3) := Toward(c, t2, when, MS_PER_MIN);
    var (s, t4) := Toward(c, t3, when, MS_PER_SEC);
    var (ms, _) := Toward(c, t4, when, 1);
    (d, Units(ms, s, m, h))
  }

  /** Time::FromTime. */
  function FromTime(hour: int, minute: int, second: int, micros: int): (us: int)
  {
    ((hour * 60 + minute) * 60 + second) * 1_000_000 + micros
  }

  /** end - start for start <= end. */
  function Forward(c: Clock, end: int, start: int): (i: Interval)
  {
    var (days, u) := FieldsApart(c, c.round(start / US_PER_MS), c.round(EndMillis(end, start)));
    var micros := ToInt32(ToUnsigned(u.ms * US_PER_MS + MicrosApart(end, start)));
    Interval(0, days, FromTime(u.h, u.m, u.s, micros))
  }

  /** timestamp - timestamp. */
  function Difference(c: Clock, end: int, start: int): (r: Result<Interval>)
  {
    if !Finite(end) || !Finite(start) then Error
    else if start > end then var i := Forward(c, start, end); Ok(Interval(-i.months, -i.days, -i.micros))
    else Ok(Forward(c, end, start))
  }

  /** ICUCalendarSub::Operation on two timestamps in order. */
  method SubtractForward(cal: Calendar, end: int, start: int) returns (i: Interval)
    requires Fits64(end) && Fits64(start) && start <= end
    modifies cal
    ensures i == Forward(cal.clock, end, start)
  {
    hide Quot, Rem, ToInt32, Toward;
    var startMicros := SetTime(cal, start);
    var endDate, endMicros := end, ToUnsigned(Rem(end, US_PER_MS));
    if startMicros > endMicros {
      endDate := endDate - US_PER_MS;
      endMicros := endMicros + US_PER_MS;
    }
    var days := SubtractField(cal, MS_PER_DAY, endDate);
    var hours := SubtractField(cal, MS_PER_HOUR, endDate);
    var mins := SubtractField(cal, MS_PER_MIN, endDate);
    var secs := SubtractField(cal, MS_PER_SEC, endDate);
    var ms := SubtractField(cal, 1, endDate);
    MicrosWrap(end, start, ms);
    var micros := ToInt32(ToUnsigned(ms * US_PER_MS + (endMicros - startMicros)));
    i := Interval(0, days, FromTime(hours, mins, secs, micros));
  }

  /** The unsigned difference of the microseconds is the signed one modulo 2^64. */
  lemma MicrosWrap(end: int, start: int, ms: int)
    ensures var endMicros := ToUnsigned(Rem(end, US_PER_MS)) + if Borrows(end, start) then US_PER_MS else 0;
            ToUnsigned(ms * US_PER_MS + (endMicros - start % US_PER_MS)) ==
            ToUnsigned(ms * US_PER_MS + MicrosApart(end, start))
  {
    hide Rem;
    var r := Rem(end, US_PER_MS);
    var x := ms * US_PER_MS + MicrosApart(end, start);
    assert ToUnsigned(r) == r - (r / TWO64) * TWO64;
    assert (x - (r / TWO64) * TWO64) % TWO64 == x % TWO64;
  }

  method SubtractTimestamps(cal: Calendar, end: int, start: int) returns (r: Result<Interval>)
    requires Fits64(end) && Fits64(start)
    modifies cal
    ensures r == Difference(cal.clock, end, start)
  {
    if !Finite(end) || !Finite(start) { return Error; }
    if start > end {
      var negated := SubtractForward(cal, start, end);
      return Ok(Interval(-negated.months, -negated.days, -negated.micros));
    }
    var i := SubtractForward(cal, end, start);
    r := Ok(i);
  }

  // ----- when subtraction is exact -----

  function Micros(i: Interval): (us: int)
  {
    i.days * US_PER_DAY + i.micros
  }

  /** Both times of a forward difference are representable. */
  predicate Storable(end: int, start: int)
  {
    Representable(start / US_PER_MS) && Representable(EndMillis(end, start))
  }

  lemma SafeStorable(end: int, start: int)
    requires Safe(end) && Safe(start)
    ensures Storable(end, start) && Finite(end) && Finite(start)
  {
    hide Quot, Rem, Borrows;
    RemQuot(end, US_PER_MS);
    RemQuot(end - US_PER_MS, US_PER_MS);
  }

  /** One field: the calendar moves toward the end and stays representable. */
  lemma TowardExact(c: Clock, ms: int, when: int, unit: int)
    requires Faithful(c) && Representable(ms) && Representable(when) && unit > 0
    ensures var (n, ms') := Toward(c, ms, when, unit);
            n == Quot(when - ms, unit) && when - ms' == Rem(when - ms, unit) && Representable(ms')
  {
    hide Quot, Rem;
    RemQuot(when - ms, unit);
    QuotSign(when - ms, unit);
    var n := Quot(when - ms, unit);
    assert if when >= ms then ms <= ms + n * unit <= when else when <= ms + n * unit <= ms;
  }

  lemma QuotSign(x: int, d: int)
    requires d > 0
    ensures (x >= 0 ==> Quot(x, d) * d >= 0) && (x <= 0 ==> Quot(x, d) * d <= 0)
  {
    if x >= 0 { assert x / d >= 0; } else { assert (-x) / d >= 0; }
  }

  /** Between representable times the fields, each taken off the rest, add up again. */
  lemma FieldsAddUp(c: Clock, from: int, when: int)
    requires Faithful(c) && Representable(from) && Representable(when)
    ensures var (d, u) := FieldsApart(c, from, when);
            d == Quot(when - from, MS_PER_DAY) &&
            u.h * MS_PER_HOUR + u.m * MS_PER_MIN + u.s * MS_PER_SEC + u.ms == Rem(when - from, MS_PER_DAY) &&
            -MS_PER_SEC < u.ms < MS_PER_SEC
  {
    hide Quot, Rem, Toward, Faithful;
    var (d, t1) := Toward(c, from, when, MS_PER_DAY);
    TowardExact(c, from, when, MS_PER_DAY);
    var (h, t2) := Toward(c, t1, when, MS_PER_HOUR);
    TowardExact(c, t1, when, MS_PER_HOUR);
    var (m, t3) := Toward(c, t2, when, MS_PER_MIN);
    TowardExact(c, t2, when, MS_PER_MIN);
    var (s, t4) := Toward(c, t3, when, MS_PER_SEC);
    TowardExact(c, t3, when, MS_PER_SEC);
    TowardExact(c, t4, when, 1);
    RemQuot(when - t1, MS_PER_HOUR);
    RemQuot(when - t2, MS_PER_MIN);
    RemQuot(when - t3, MS_PER_SEC);
    RemQuot(when - t4, 1);
  }

  /** The forward difference of storable times, in closed form. */
  lemma ForwardIs(c: Clock, end: int, start: int)
    requires Faithful(c) && Storable(end, start)
    ensures var apart := EndMillis(end, start) - start / US_PER_MS;
            Forward(c, end, start) ==
            Interval(0, Quot(apart, MS_PER_DAY), Rem(apart, MS_PER_DAY) * US_PER_MS + MicrosApart(end, start))
  {
    hide Quot, Rem, FieldsApart, EndMillis, ToInt32, ToUnsigned, Borrows;
    var from, when := start / US_PER_MS, EndMillis(end, start);
    FieldsAddUp(c, from, when);
    RemQuot(end, US_PER_MS);
    var (_, u) := FieldsApart(c, from, when);
    CastsUndo(u.ms * US_PER_MS + MicrosApart(end, start));
  }

  /** The failing family: an end in the first millisecond after the epoch from which one has to be
      borrowed - the truncating division then does not see the borrow. */
  predicate LostBorrow(end: int, start: int)
  {
    0 < end < US_PER_MS && start % US_PER_MS > end
  }

  lemma BorrowedEnd(end: int, start: int)
    ensures EndMillis(end, start) * US_PER_MS + Rem(end, US_PER_MS) + (if Borrows(end, start) then US_PER_MS else 0) ==
            end + if LostBorrow(end, start) then US_PER_MS else 0
  {
    RemQuot(end, US_PER_MS);
  }

  /** Between representable times the forward difference is exact, or one millisecond too long in
      exactly the failing family. */
  lemma ForwardIsExact(c: Clock, end: int, start: int)
    requires Faithful(c) && Storable(end, start)
    ensures Micros(Forward(c, end, start)) == end - start + if LostBorrow(end, start) then US_PER_MS else 0
  {
    hide Quot, Rem, Borrows, Forward, EndMillis;
    ForwardIs(c, end, start);
    BorrowedEnd(end, start);
    RemQuot(EndMillis(end, start) - start / US_PER_MS, MS_PER_DAY);
  }

  /** The later and the earlier of two timestamps. */
  function Later(a: int, b: int): (r: int) { if a >= b then a else b }
  function Earlier(a: int, b: int): (r: int) { if a >= b then b else a }

  /** Between representable times subtraction is exact if and only if no borrow is lost. */
  lemma SubtractionIsExact(c: Clock, end: int, start: int)
    requires Faithful(c) && Finite(end) && Finite(start) && Storable(Later(end, start), Earlier(end, start))
    ensures var r := Difference(c, end, start);
            r.Ok? && r.value.months == 0 &&
            (Micros(r.value) == end - start <==> !LostBorrow(Later(end, start), Earlier(end, start)))
  {
    hide Storable, Faithful;
    ForwardIsExact(c, Later(end, start), Earlier(end, start));
    ForwardMonths(c, end, start);
  }

  lemma ForwardMonths(c: Clock, end: int, start: int)
    ensures Forward(c, end, start).months == 0 && Forward(c, start, end).months == 0
  {
  }

  /** A start at or after the epoch, or an end outside its first millisecond, never loses a borrow. */
  lemma NoBorrowLost(end: int, start: int)
    requires start <= end && (start >= 0 || !(0 <= end < US_PER_MS))
    ensures !LostBorrow(end, start)
  {
  }

  /** Two microseconds around the epoch come out as 1002. */
  lemma BorrowLostAtEpoch(c: Clock)
    requires Faithful(c)
    ensures Difference(c, 1, -1) == Ok(Interval(0, 0, 1002))
  {
    hide Forward, Faithful;
    SafeStorable(1, -1);
    ForwardIs(c, 1, -1);
    assert Rem(1, 1000) == 1 && (-1) % 1000 == 999;
  }

  /** The parts of a forward difference: microseconds are below a day, and negative only if the end is;
      the days fit 32 bits. */
  lemma ForwardParts(c: Clock, end: int, start: int)
    requires Faithful(c) && start <= end && Storable(end, start)
    ensures var i := Forward(c, end, start);
            i.months == 0 && i.days >= 0 && -2 * US_PER_MS < i.micros < US_PER_DAY &&
            (end >= 0 ==> i.micros >= 0) && Fits32(i.days)
  {
    hide Quot, Forward, Faithful;
    ForwardIs(c, end, start);
    PartsBounds(end, start);
  }

  lemma PartsBounds(end: int, start: int)
    requires start <= end && Storable(end, start)
    ensures var apart := EndMillis(end, start) - start / US_PER_MS;
            var micros := Rem(apart, MS_PER_DAY) * US_PER_MS + MicrosApart(end, start);
            Quot(apart, MS_PER_DAY) >= 0 && -2 * US_PER_MS < micros < US_PER_DAY &&
            (end >= 0 ==> micros >= 0) && Fits32(Quot(apart, MS_PER_DAY))
  {
    RemQuot(end, US_PER_MS);
    BorrowedEnd(end, start);
    RemQuot(EndMillis(end, start) - start / US_PER_MS, MS_PER_DAY);
  }

  /** Adding the difference of safe timestamps leads back to the end - exactly when the difference is
      exact. */
  lemma AddUndoesSubtract(c: Clock, end: int, start: int)
    requires Faithful(c) && Safe(end) && Safe(start)
    ensures var r := Difference(c, end, start);
            r.Ok? && (Sum(c, start, r.value) == Ok(end) <==> !LostBorrow(Later(end, start), Earlier(end, start)))
  {
    hide Quot, Rem, Forward, Sum, Faithful, Storable, StaysRepresentable;
    SafeStorable(Later(end, start), Earlier(end, start));
    SubtractionIsExact(c, end, start);
    ForwardIsExact(c, Later(end, start), Earlier(end, start));
    ForwardParts(c, Later(end, start), Earlier(end, start));
    var i := Difference(c, end, start).value;
    DifferenceStays(end, start, i);
    AdditionIsExact(c, start, i);
  }

  lemma DifferenceStays(end: int, start: int, i: Interval)
    requires Safe(end) && Safe(start) && i.months == 0
    requires end - start - US_PER_MS <= Micros(i) <= end - start + US_PER_MS
    requires if start <= end then i.days >= 0 && -2 * US_PER_MS < i.micros < US_PER_DAY && (end >= 0 ==> i.micros >= 0)
             else i.days <= 0 && -US_PER_DAY < i.micros < 2 * US_PER_MS
    ensures StaysRepresentable(start, i)
  {
    hide Quot, Rem;
    RemQuot(start, US_PER_MS);
    RemQuot(i.micros, US_PER_MS);
  }
}
