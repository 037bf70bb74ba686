/** Null-safe comparisons of dates. A date is an instant in milliseconds; a null date is
    `None`; the current time is passed in as `now`. */
module DateTimeUtils {
  import opened Wrappers

  datatype Date = Date(time: int)

  /** `isNowAfter`: false for a null date, otherwise whether now is strictly later. */
  function IsNowAfter(now: int, date: Option<Date>): (r: bool)
    ensures date.None? ==> !r
    ensures date.Some? ==> (r <==> now > date.value.time)
  {
    date.Some? && now > date.value.time
  }

  /** `isNowEqualToOrGreaterThan`: false for a null date, otherwise whether now is at or
      after it. */
  function IsNowEqualToOrGreaterThan(now: int, date: Option<Date>): (r: bool)
    ensures date.None? ==> !r
    ensures date.Some? ==> (r <==> now >= date.value.time)
  {
    date.Some? && now >= date.value.time
  }

  /** `isEqualToOrGreaterThan`: false when either date is null, otherwise whether the
      first is at or after the second. */
  function IsEqualToOrGreaterThan(first: Option<Date>, second: Option<Date>): (r: bool)
    ensures first.None? || second.None? ==> !r
    ensures first.Some? && second.Some? ==> (r <==> first.value.time >= second.value.time)
  {
    first.Some? && second.Some? && first.value.time >= second.value.time
  }

  /** `clone`: null for null, otherwise a date at the same instant. */
  function Clone(date: Option<Date>): (r: Option<Date>)
    ensures r.None? <==> date.None?
    ensures r.Some? ==> r.value.time == date.value.time
  {
    match date
    case None => None
    case Some(d) => Some(Date(d.time))
  }

  /** For non-null dates the comparison is total, and holds both ways exactly for the
      same instant. */
  lemma EqualToOrGreaterThanIsTotal(a: Date, b: Date)
    ensures IsEqualToOrGreaterThan(Some(a), Some(b)) || IsEqualToOrGreaterThan(Some(b), Some(a))
    ensures IsEqualToOrGreaterThan(Some(a), Some(b)) && IsEqualToOrGreaterThan(Some(b), Some(a)) <==> a.time == b.time
  {
  }

  /** At the same `now`, being after a date implies being at or after it; the two differ
      only at the date's own instant. */
  lemma NowAfterImpliesEqualOrGreater(now: int, date: Option<Date>)
    ensures IsNowAfter(now, date) ==> IsNowEqualToOrGreaterThan(now, date)
    ensures IsNowEqualToOrGreaterThan(now, date) && !IsNowAfter(now, date) <==> date == Some(Date(now))
  {
  }

  /** The "now" comparisons are the two-date comparison against the current instant. */
  lemma NowComparisonIsDateComparison(now: int, date: Option<Date>)
    ensures IsNowEqualToOrGreaterThan(now, date) == IsEqualToOrGreaterThan(Some(Date(now)), date)
    ensures IsNowAfter(now, date) == (IsEqualToOrGreaterThan(Some(Date(now)), date) && !IsEqualToOrGreaterThan(date, Some(Date(now))))
  {
  }

  /** A clone compares equal to its original both ways. */
  lemma CloneComparesEqual(date: Date)
    ensures IsEqualToOrGreaterThan(Clone(Some(date)), Some(date))
    ensures IsEqualToOrGreaterThan(Some(date), Clone(Some(date)))
  {
  }
}
