/**
 * Calendar dates as the pipeline stores them: a `YYYY-MM-DD` string together
 * with the calendar day it parses to. Comparisons look only at the day; the
 * functions return the whole value, so which of two equal days wins is visible.
 */
module Dates {
  import opened Wrappers

  /** `text` is the string as written in the JSON file, `day` its calendar ordinal. */
  datatype Date = Date(text: string, day: int)

  /**
   * `get_most_recent_date` of merge-platforms.py and of xbox-scraper.py: the
   * later of two dates, the first one when both fall on the same day.
   */
  function MostRecent(date1: Date, date2: Date): (r: Date)
    ensures r == date1 || r == date2
    ensures r.day >= date1.day && r.day >= date2.day
    ensures date1.day == date2.day ==> r == date1
  {
    if date1.day >= date2.day then date1 else date2
  }

  /** `get_most_recent_date` of process/aux.py, where either date may be missing. */
  function MostRecentOrNone(date1: Option<Date>, date2: Option<Date>): (r: Option<Date>)
    ensures date1.None? && date2.None? ==> r.None?
    ensures date1.None? ==> r == date2
    ensures date2.None? ==> r == date1
    ensures date1.Some? && date2.Some? ==>
              r.Some? && (r.value == date1.value || r.value == date2.value) &&
              r.value.day >= date1.value.day && r.value.day >= date2.value.day &&
              (date1.value.day == date2.value.day ==> r.value == date1.value)
  {
    if date1.None? && date2.None? then None
    else if date1.None? then date2
    else if date2.None? then date1
    else if date1.value.day >= date2.value.day then date1 else date2
  }

  /** `d` is one of `ds` and no date in `ds` is later. */
  ghost predicate IsLatest(d: Date, ds: seq<Date>) {
    d in ds && forall i :: 0 <= i < |ds| ==> ds[i].day <= d.day
  }
}
