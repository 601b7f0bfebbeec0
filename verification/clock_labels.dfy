/**
 * Time-of-day labels of the scheduling grid ("09:00", "23:30", ...).
 *
 * Both grid pages build a label from an hour with the same two-digit padding
 * (`hour < 10 ? `0${hour}` : `${hour}``) followed by a literal ":00" or ":30".
 * `ParseClock` is the independent reading of such a label back into minutes
 * after midnight; the round trip is what makes the labels comparable.
 */
module ClockLabels {
  import opened Wrappers

  predicate IsDigit(c: char) { '0' <= c <= '9' }

  function DigitValue(c: char): nat
    requires IsDigit(c)
  {
    (c as int - '0' as int) as nat
  }

  function Digit(d: nat): (c: char)
    requires d < 10
    ensures IsDigit(c) && DigitValue(c) == d
  {
    (d + '0' as int) as char
  }

  /** The number a string of decimal digits denotes. */
  function DecimalValue(s: string): nat
    requires forall i :: 0 <= i < |s| ==> IsDigit(s[i])
  {
    if |s| == 0 then 0 else DecimalValue(s[..|s| - 1]) * 10 + DigitValue(s[|s| - 1])
  }

  /** JavaScript's `${n}` for a natural number: its shortest decimal form. */
  function Decimal(n: nat): (s: string)
    ensures 1 <= |s| && forall i :: 0 <= i < |s| ==> IsDigit(s[i])
    ensures DecimalValue(s) == n
    ensures n < 10 <==> |s| == 1
    ensures 10 <= n < 100 <==> |s| == 2
    decreases n
  {
    if n < 10 then [Digit(n)] else Decimal(n / 10) + [Digit(n % 10)]
  }

  /** `hour < 10 ? `0${hour}` : `${hour}`` for an hour of at most two digits. */
  function PadHour(h: nat): (s: string)
    requires h < 100
    ensures |s| == 2 && IsDigit(s[0]) && IsDigit(s[1])
    ensures DigitValue(s[0]) * 10 + DigitValue(s[1]) == h
  {
    if h < 10 then "0" + Decimal(h) else Decimal(h)
  }

  /** Minutes after midnight written in a well-formed `HH:MM` label, if it is one. */
  function ParseClock(s: string): Option<nat>
  {
    if |s| == 5 && IsDigit(s[0]) && IsDigit(s[1]) && s[2] == ':' && IsDigit(s[3]) && IsDigit(s[4])
    then Some((DigitValue(s[0]) * 10 + DigitValue(s[1])) * 60 + DigitValue(s[3]) * 10 + DigitValue(s[4]))
    else None
  }

  /** The label `${paddedHour}:00` or `${paddedHour}:30`. */
  function Label(h: nat, half: bool): string
    requires h < 100
  {
    PadHour(h) + (if half then ":30" else ":00")
  }

  /** The minute a label stands for: hour * 60, plus 30 for a half-hour label. */
  function MinuteOf(h: nat, half: bool): nat
  {
    h * 60 + (if half then 30 else 0)
  }

  /** Every label is five characters `HH:MM` and reads back as the time it was built from. */
  lemma LabelRoundTrip(h: nat, half: bool)
    requires h < 100
    ensures |Label(h, half)| == 5 && Label(h, half)[2] == ':'
    ensures ParseClock(Label(h, half)) == Some(MinuteOf(h, half))
  {
  }

  /** Two labels are the same string exactly when they were built from the same hour and half. */
  lemma LabelInjective(h1: nat, half1: bool, h2: nat, half2: bool)
    requires h1 < 100 && h2 < 100
    ensures Label(h1, half1) == Label(h2, half2) <==> h1 == h2 && half1 == half2
  {
    LabelRoundTrip(h1, half1);
    LabelRoundTrip(h2, half2);
  }
}
