/** Period arithmetic over (value, unit) pairs, the unit range table, and time-range
    predicates over instants (milliseconds on a UTC time line). */
module JodaTimeUtils {
  import opened Wrappers

  const SECONDS := 0
  const MINUTES := 1
  const HOURS := 2
  const DAYS := 3
  const WEEKS := 4
  const MONTHS := 5
  const YEARS := 6

  /** `Integer.MAX_VALUE`. */
  const IntMax := 0x7fff_ffff

  /** A period: one count per field (fields are unbounded integers here). */
  datatype Period = Period(years: int, months: int, weeks: int, days: int,
                           hours: int, minutes: int, seconds: int)
  {
    function Plus(other: Period): Period {
      Period(years + other.years, months + other.months, weeks + other.weeks,
             days + other.days, hours + other.hours, minutes + other.minutes,
             seconds + other.seconds)
    }

    /** The field a unit constant names. */
    function Field(unit: int): int
      requires SECONDS <= unit <= YEARS
    {
      if unit == SECONDS then seconds
      else if unit == MINUTES then minutes
      else if unit == HOURS then hours
      else if unit == DAYS then days
      else if unit == WEEKS then weeks
      else if unit == MONTHS then months
      else years
    }
  }

  const ZeroPeriod := Period(0, 0, 0, 0, 0, 0, 0)

  datatype TimeError =
    | EmptyPairs
    | OddLength
    | NegativeValue(value: int)
    | InvalidUnit(unit: int)

  /** One `case` of the switch: add `value` to the field `unit` names. */
  function AddUnit(p: Period, unit: int, value: int): (r: Result<Period, TimeError>)
    ensures r.Failure? <==> !(SECONDS <= unit <= YEARS)
    ensures r.Failure? ==> r.error == InvalidUnit(unit)
    ensures r.Success? ==> forall u :: SECONDS <= u <= YEARS ==>
              r.value.Field(u) == p.Field(u) + (if u == unit then value else 0)
  {
    if unit == SECONDS then Success(p.(seconds := p.seconds + value))
    else if unit == MINUTES then Success(p.(minutes := p.minutes + value))
    else if unit == HOURS then Success(p.(hours := p.hours + value))
    else if unit == DAYS then Success(p.(days := p.days + value))
    else if unit == WEEKS then Success(p.(weeks := p.weeks + value))
    else if unit == MONTHS then Success(p.(months := p.months + value))
    else if unit == YEARS then Success(p.(years := p.years + value))
    else Failure(InvalidUnit(unit))
  }

  /** The loop of `toPeriod`: each pair is (value, unit); the value is checked before
      the unit, and the first bad pair stops the loop. */
  function AccumulatePairs(pairs: seq<int>, p: Period): (r: Result<Period, TimeError>)
    requires |pairs| % 2 == 0
    ensures r.Success? ==> forall u :: SECONDS <= u <= YEARS ==> r.value.Field(u) >= p.Field(u)
    ensures r.Failure? ==> r.error.NegativeValue? || r.error.InvalidUnit?
  {
    if pairs == [] then Success(p)
    else if pairs[0] < 0 then Failure(NegativeValue(pairs[0]))
    else
      var next :- AddUnit(p, pairs[1], pairs[0]);
      AccumulatePairs(pairs[2..], next)
  }

  /** Every pair has a non-negative value and a known unit. */
  predicate ValidPairs(pairs: seq<int>)
    requires |pairs| % 2 == 0
  {
    if pairs == [] then true
    else pairs[0] >= 0 && SECONDS <= pairs[1] <= YEARS && ValidPairs(pairs[2..])
  }

  /** The sum of the values paired with `unit`. */
  function SumFor(pairs: seq<int>, unit: int): int
    requires |pairs| % 2 == 0
  {
    if pairs == [] then 0
    else (if pairs[1] == unit then pairs[0] else 0) + SumFor(pairs[2..], unit)
  }

  /** The error of the first bad pair, if any. */
  function FirstError(pairs: seq<int>): Option<TimeError>
    requires |pairs| % 2 == 0
  {
    if pairs == [] then None
    else if pairs[0] < 0 then Some(NegativeValue(pairs[0]))
    else if !(SECONDS <= pairs[1] <= YEARS) then Some(InvalidUnit(pairs[1]))
    else FirstError(pairs[2..])
  }

  lemma {:induction false} AccumulatePairsSpec(pairs: seq<int>, p: Period)
    requires |pairs| % 2 == 0
    ensures AccumulatePairs(pairs, p).Success? <==> ValidPairs(pairs)
    ensures ValidPairs(pairs) <==> FirstError(pairs).None?
    ensures AccumulatePairs(pairs, p).Failure? ==> AccumulatePairs(pairs, p).error == FirstError(pairs).value
    ensures AccumulatePairs(pairs, p).Success? ==>
              forall u :: SECONDS <= u <= YEARS ==> AccumulatePairs(pairs, p).value.Field(u) == p.Field(u) + SumFor(pairs, u)
  {
    if pairs != [] && pairs[0] >= 0 {
      var step := AddUnit(p, pairs[1], pairs[0]);
      if step.Success? {
        AccumulatePairsSpec(pairs[2..], step.value);
      }
    }
  }

  /** `toPeriod`: an empty or odd-length argument is rejected; otherwise each period field
      is the sum of the values paired with its unit, unless some pair is bad, in which
      case the first bad pair's error is reported. */
  function ToPeriod(pairs: seq<int>): (r: Result<Period, TimeError>)
    ensures |pairs| == 0 ==> r == Failure(EmptyPairs)
    ensures |pairs| % 2 == 1 ==> r == Failure(OddLength)
    ensures |pairs| > 0 && |pairs| % 2 == 0 ==>
              (r.Success? <==> ValidPairs(pairs))
              && (r.Failure? ==> Some(r.error) == FirstError(pairs))
              && (r.Success? ==> forall u :: SECONDS <= u <= YEARS ==> r.value.Field(u) == SumFor(pairs, u))
  {
    if |pairs| == 0 then Failure(EmptyPairs)
    else if |pairs| % 2 != 0 then Failure(OddLength)
    else
      AccumulatePairsSpec(pairs, ZeroPeriod);
      AccumulatePairs(pairs, ZeroPeriod)
  }

  lemma {:induction false} SumForAppend(a: seq<int>, b: seq<int>, unit: int)
    requires |a| % 2 == 0 && |b| % 2 == 0
    ensures SumFor(a + b, unit) == SumFor(a, unit) + SumFor(b, unit)
  {
    if a == [] {
      assert a + b == b;
    } else {
      assert (a + b)[2..] == a[2..] + b;
      SumForAppend(a[2..], b, unit);
    }
  }

  lemma {:induction false} ValidPairsAppend(a: seq<int>, b: seq<int>)
    requires |a| % 2 == 0 && |b| % 2 == 0
    ensures ValidPairs(a + b) <==> ValidPairs(a) && ValidPairs(b)
  {
    if a == [] {
      assert a + b == b;
    } else {
      assert (a + b)[2..] == a[2..] + b;
      ValidPairsAppend(a[2..], b);
    }
  }

  /** Two periods agreeing on every unit's field are equal. */
  lemma PeriodsEqualByField(p: Period, q: Period)
    requires forall u :: SECONDS <= u <= YEARS ==> p.Field(u) == q.Field(u)
    ensures p == q
  {
    assert p.seconds == q.seconds by { assert p.Field(SECONDS) == q.Field(SECONDS); }
    assert p.minutes == q.minutes by { assert p.Field(MINUTES) == q.Field(MINUTES); }
    assert p.hours == q.hours by { assert p.Field(HOURS) == q.Field(HOURS); }
    assert p.days == q.days by { assert p.Field(DAYS) == q.Field(DAYS); }
    assert p.weeks == q.weeks by { assert p.Field(WEEKS) == q.Field(WEEKS); }
    assert p.months == q.months by { assert p.Field(MONTHS) == q.Field(MONTHS); }
    assert p.years == q.years by { assert p.Field(YEARS) == q.Field(YEARS); }
  }

  /** Concatenating valid pair lists adds their periods. */
  lemma ToPeriodAppend(a: seq<int>, b: seq<int>)
    requires ToPeriod(a).Success? && ToPeriod(b).Success?
    ensures ToPeriod(a + b) == Success(ToPeriod(a).value.Plus(ToPeriod(b).value))
  {
    ValidPairsAppend(a, b);
    var sum := ToPeriod(a).value.Plus(ToPeriod(b).value);
    forall u | SECONDS <= u <= YEARS ensures ToPeriod(a + b).value.Field(u) == sum.Field(u) {
      SumForAppend(a, b, u);
    }
    PeriodsEqualByField(ToPeriod(a + b).value, sum);
  }

  /** The example of the documentation: 180 seconds and 90 days. */
  lemma ToPeriodExample()
    ensures ToPeriod([180, SECONDS, 90, DAYS]) == Success(ZeroPeriod.(seconds := 180, days := 90))
  {
    var pairs := [180, SECONDS, 90, DAYS];
    assert pairs[2..] == [90, DAYS];
    assert pairs[2..][2..] == [];
    var afterFirst := ZeroPeriod.(seconds := 180);
    assert AccumulatePairs(pairs[2..][2..], afterFirst.(days := 90)) == Success(afterFirst.(days := 90));
    assert AccumulatePairs(pairs[2..], afterFirst) == Success(afterFirst.(days := 90));
  }

  /** `range`: how many of a unit make up the next larger one (weeks are skipped), years
      being unbounded; weeks and unknown units are errors. */
  function Range(unit: int): (r: Result<int, TimeError>)
    ensures r.Failure? <==> unit == WEEKS || !(SECONDS <= unit <= YEARS)
    ensures r.Failure? ==> r.error == InvalidUnit(unit)
    ensures r.Success? ==> 0 < r.value <= IntMax
    ensures r.Success? && unit != YEARS ==> r.value <= 60
  {
    if unit == YEARS then Success(IntMax)
    else if unit == MONTHS then Success(12)
    else if unit == DAYS then Success(30)
    else if unit == HOURS then Success(24)
    else if unit == MINUTES then Success(60)
    else if unit == SECONDS then Success(60)
    else Failure(InvalidUnit(unit))
  }

  /** The table, unit by unit. */
  lemma RangeTable()
    ensures Range(MONTHS) == Success(12) && Range(DAYS) == Success(30)
    ensures Range(HOURS) == Success(24) && Range(MINUTES) == Success(60)
    ensures Range(SECONDS) == Success(60) && Range(YEARS) == Success(IntMax)
    ensures Range(WEEKS) == Failure(InvalidUnit(WEEKS))
  {
  }

  // ---------------------------------------------------------------------------------
  // Time ranges over instants

  /** `inTimeRange`: strictly inside, or at either endpoint. */
  function InTimeRange(t: int, rangeStart: int, rangeEnd: int): (r: bool)
    ensures rangeStart <= rangeEnd ==> (r <==> rangeStart <= t <= rangeEnd)
    ensures rangeStart > rangeEnd ==> (r <==> t == rangeStart || t == rangeEnd)
  {
    (t > rangeStart && t < rangeEnd) || t == rangeStart || t == rangeEnd
  }

  /** `outsideTimeRange`: before the start or after the end. */
  function OutsideTimeRange(t: int, rangeStart: int, rangeEnd: int): (r: bool)
    ensures rangeStart <= rangeEnd ==> (r <==> !(rangeStart <= t <= rangeEnd))
    ensures rangeStart > rangeEnd ==> r
  {
    t < rangeStart || t > rangeEnd
  }

  /** Both endpoints are in range, even for a reversed range; for an ordered range the
      two predicates are complements. */
  lemma TimeRangeComplement(t: int, rangeStart: int, rangeEnd: int)
    ensures InTimeRange(rangeStart, rangeStart, rangeEnd) && InTimeRange(rangeEnd, rangeStart, rangeEnd)
    ensures rangeStart <= rangeEnd ==> (InTimeRange(t, rangeStart, rangeEnd) <==> !OutsideTimeRange(t, rangeStart, rangeEnd))
  {
  }

  /** For a reversed range an endpoint is both in range and outside it. */
  lemma ReversedRangeOverlaps(rangeStart: int, rangeEnd: int)
    requires rangeStart > rangeEnd
    ensures InTimeRange(rangeStart, rangeStart, rangeEnd) && OutsideTimeRange(rangeStart, rangeStart, rangeEnd)
  {
  }

  /** `ago`: the anchor minus the period of the pairs. The calendar subtraction is a
      parameter. */
  function Ago(anchor: int, pairs: seq<int>, minus: (int, Period) -> int): (r: Result<int, TimeError>)
    ensures r.Success? <==> ToPeriod(pairs).Success?
    ensures r.Success? ==> r.value == minus(anchor, ToPeriod(pairs).value)
  {
    var period :- ToPeriod(pairs);
    Success(minus(anchor, period))
  }

  /** `afterTimeSpanAgo`: at or after the instant the span before `now`. */
  function AfterTimeSpanAgo(t: int, now: int, pairs: seq<int>, minus: (int, Period) -> int): (r: Result<bool, TimeError>)
    ensures r.Success? <==> ToPeriod(pairs).Success?
    ensures r.Failure? ==> r.error == ToPeriod(pairs).error
    ensures r.Success? ==> (r.value <==> t >= minus(now, ToPeriod(pairs).value))
  {
    var ago :- Ago(now, pairs, minus);
    Success(t == ago || t > ago)
  }

  /** `beforeTimeSpanAgo`: strictly before the instant the span before `now`. */
  function BeforeTimeSpanAgo(t: int, now: int, pairs: seq<int>, minus: (int, Period) -> int): (r: Result<bool, TimeError>)
    ensures r.Success? <==> ToPeriod(pairs).Success?
    ensures r.Failure? ==> r.error == ToPeriod(pairs).error
    ensures r.Success? ==> (r.value <==> t < minus(now, ToPeriod(pairs).value))
  {
    var ago :- Ago(now, pairs, minus);
    Success(t < ago)
  }

  /** On valid pairs exactly one of the two holds; on invalid pairs both fail alike. */
  lemma AfterIsNotBefore(t: int, now: int, pairs: seq<int>, minus: (int, Period) -> int)
    ensures AfterTimeSpanAgo(t, now, pairs, minus).Success? <==> ToPeriod(pairs).Success?
    ensures BeforeTimeSpanAgo(t, now, pairs, minus).Success? <==> ToPeriod(pairs).Success?
    ensures ToPeriod(pairs).Success? ==>
              AfterTimeSpanAgo(t, now, pairs, minus).value == !BeforeTimeSpanAgo(t, now, pairs, minus).value
    ensures ToPeriod(pairs).Failure? ==>
              AfterTimeSpanAgo(t, now, pairs, minus) == BeforeTimeSpanAgo(t, now, pairs, minus) == Failure(ToPeriod(pairs).error)
  {
  }
}
