/**
 * The window of calendar days the grid shows (`getDatesForWeeks`, identical in
 * the administrator's and the participant's page).
 *
 * A day is an integer day number. "Today" is injected as its day number and
 * its JavaScript weekday (`getDay()`: 0 = Sunday, 1 = Monday, ..., 6 = Saturday).
 * The locale- and time-zone-dependent formatting of a day into its `fullDate`
 * and `displayDate` strings is injected as two functions.
 */
module ScheduleWindow {

  /** The window length used by both pages: `getDatesForWeeks(4)`. */
  const DefaultWeeks: nat := 4

  /** `toLocaleDateString('en-US', { weekday: 'short' })`, indexed by `getDay()`. */
  const WeekdayNames: seq<string> := ["Sun", "Mon", "Tue", "Wed", "Thu", "Fri", "Sat"]

  const Monday: nat := 1

  /** One column of the grid. */
  datatype GridDay = GridDay(fullDate: string, displayDay: string, displayDate: string)

  /** The JavaScript weekday of day `d`, counted from today's. */
  function WeekdayOf(d: int, today: int, todayWeekday: nat): (w: nat)
    requires todayWeekday < 7
    ensures w < 7
    ensures (w - todayWeekday - (d - today)) % 7 == 0
  {
    (todayWeekday + (d - today)) % 7
  }

  /** `today + offset` with `offset = getDay() === 0 ? -6 : 1 - getDay()`. */
  function MondayOnOrBefore(today: int, todayWeekday: nat): (anchor: int)
    requires todayWeekday < 7
    ensures WeekdayOf(anchor, today, todayWeekday) == Monday
    ensures anchor <= today < anchor + 7
    ensures todayWeekday == 0 ==> anchor == today - 6
  {
    var offset := if todayWeekday == 0 then -6 else 1 - todayWeekday;
    today + offset
  }

  /**
   * `getDatesForWeeks(weeks)`: `weeks * 7` consecutive days starting at the Monday
   * on or before today; entry i is that Monday plus i days.
   */
  method DatesForWeeks(weeks: nat, today: int, todayWeekday: nat,
                       isoDate: int -> string, shortDate: int -> string)
    returns (dates: seq<GridDay>)
    requires todayWeekday < 7
    ensures |dates| == weeks * 7
    ensures forall i :: 0 <= i < |dates| ==>
      var d := MondayOnOrBefore(today, todayWeekday) + i;
      dates[i] == GridDay(isoDate(d), WeekdayNames[WeekdayOf(d, today, todayWeekday)], shortDate(d))
  {
    dates := [];
    var offset := if todayWeekday == 0 then -6 else 1 - todayWeekday;
    var currentMonday := today + offset;
    for i := 0 to weeks * 7
      invariant |dates| == i
      invariant forall k :: 0 <= k < i ==>
        var d := currentMonday + k;
        dates[k] == GridDay(isoDate(d), WeekdayNames[WeekdayOf(d, today, todayWeekday)], shortDate(d))
    {
      var date := currentMonday + i;
      var dayName := WeekdayNames[(todayWeekday + (date - today)) % 7];
      dates := dates + [GridDay(isoDate(date), dayName, shortDate(date))];
    }
  }

  /** What `DatesForWeeks` returns, as a predicate over its result. */
  ghost predicate IsWindow(dates: seq<GridDay>, weeks: nat, today: int, todayWeekday: nat,
                           isoDate: int -> string, shortDate: int -> string)
    requires todayWeekday < 7
  {
    && |dates| == weeks * 7
    && forall i :: 0 <= i < |dates| ==>
         var d := MondayOnOrBefore(today, todayWeekday) + i;
         dates[i] == GridDay(isoDate(d), WeekdayNames[WeekdayOf(d, today, todayWeekday)], shortDate(d))
  }

  /** Day i of the window falls on weekday (Monday + i) mod 7: the columns run Mon, Tue, ..., Sun, Mon, ... */
  lemma WindowWeekdays(dates: seq<GridDay>, weeks: nat, today: int, todayWeekday: nat,
                       isoDate: int -> string, shortDate: int -> string)
    requires todayWeekday < 7
    requires IsWindow(dates, weeks, today, todayWeekday, isoDate, shortDate)
    ensures forall i :: 0 <= i < |dates| ==> dates[i].displayDay == WeekdayNames[(Monday + i) % 7]
    ensures weeks > 0 ==> dates[0].displayDay == "Mon" && dates[6].displayDay == "Sun"
  {
  }

  /** Today is in the first week of the window: its column index lies in 0..6. */
  lemma TodayInFirstWeek(dates: seq<GridDay>, weeks: nat, today: int, todayWeekday: nat,
                         isoDate: int -> string, shortDate: int -> string)
    requires todayWeekday < 7 && weeks > 0
    requires IsWindow(dates, weeks, today, todayWeekday, isoDate, shortDate)
    ensures var k := today - MondayOnOrBefore(today, todayWeekday);
      0 <= k < 7 && dates[k].fullDate == isoDate(today)
  {
  }

  /** `fullDate` is an injective rendering of the day (ISO `YYYY-MM-DD`). */
  ghost predicate Injective(f: int -> string)
  {
    forall a, b :: f(a) == f(b) ==> a == b
  }

  /** The window's days are consecutive, hence distinct: no two columns share a `fullDate`. */
  lemma WindowDistinct(dates: seq<GridDay>, weeks: nat, today: int, todayWeekday: nat,
                       isoDate: int -> string, shortDate: int -> string)
    requires todayWeekday < 7 && Injective(isoDate)
    requires IsWindow(dates, weeks, today, todayWeekday, isoDate, shortDate)
    ensures forall i, j :: 0 <= i < j < |dates| ==> dates[i].fullDate != dates[j].fullDate
  {
  }

  /** With the default of four weeks the grid has 28 columns. */
  lemma DefaultWindowLength(dates: seq<GridDay>, today: int, todayWeekday: nat,
                            isoDate: int -> string, shortDate: int -> string)
    requires todayWeekday < 7
    requires IsWindow(dates, DefaultWeeks, today, todayWeekday, isoDate, shortDate)
    ensures |dates| == 28
  {
  }
}
