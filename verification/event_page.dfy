/**
 * The participant's scheduling page: an hourly grid of time labels.
 * Its loop runs to hour 24 inclusive, so the grid holds "24:00" and then the
 * literal "00:00": two labels for the same instant, midnight.
 */
module EventPage {
  import opened Wrappers
  import opened ClockLabels

  /** The shape `generateTimeSlots` has here: "09:00", "10:00", ..., "24:00", then "00:00". */
  ghost predicate HourlyGrid(slots: seq<string>)
  {
    && |slots| == 17
    && (forall i :: 0 <= i < 16 ==> slots[i] == Label(9 + i, false))
    && slots[16] == "00:00"
  }

  /** `generateTimeSlots`: one label per hour from 9 to 24, then midnight. */
  method GenerateTimeSlots() returns (slots: seq<string>)
    ensures |slots| == 17
    ensures forall i :: 0 <= i < 16 ==> slots[i] == Label(9 + i, false)
    ensures slots[16] == "00:00"
  {
    slots := [];
    for hour := 9 to 25
      invariant |slots| == hour - 9
      invariant forall i :: 0 <= i < |slots| ==> slots[i] == Label(9 + i, false)
    {
      var paddedHour := PadHour(hour);
      slots := slots + [paddedHour + ":00"];
    }
    slots := slots + ["00:00"];
  }

  /** Every label is a zero-padded two-digit hour followed by ":00"; there is no half-hour label. */
  lemma TimeSlotsOnTheHour(slots: seq<string>)
    requires HourlyGrid(slots)
    ensures forall i :: 0 <= i < |slots| ==>
      |slots[i]| == 5 && IsDigit(slots[i][0]) && IsDigit(slots[i][1]) && slots[i][2..] == ":00"
    ensures forall i :: 0 <= i < 16 ==> ParseClock(slots[i]) == Some(540 + 60 * i)
  {
  }

  /** The labels are pairwise distinct strings, and both "24:00" and "00:00" occur. */
  lemma TimeSlotsDistinct(slots: seq<string>)
    requires HourlyGrid(slots)
    ensures forall i, j :: 0 <= i < j < |slots| ==> slots[i] != slots[j]
    ensures slots[15] == "24:00" && slots[16] == "00:00"
  {
    TimeSlotsOnTheHour(slots);
    assert ParseClock(slots[16]) == Some(0);
    assert slots[15] == Label(24, false);
  }

  /** "24:00" and the closing "00:00" denote the same time of day. */
  lemma MidnightListedTwice(slots: seq<string>)
    requires HourlyGrid(slots)
    ensures ParseClock(slots[15]).Some? && ParseClock(slots[16]).Some?
    ensures ParseClock(slots[15]).value % 1440 == ParseClock(slots[16]).value % 1440
    ensures slots[15] != slots[16]
  {
  }
}
