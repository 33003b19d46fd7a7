/**
 * The article timestamp: a UTC date and time written as `%Y%m%d%H%M%S`. The clock itself
 * is not modelled; callers pass the moment in.
 */
module Timestamp {
  import opened Digits

  datatype DateTime = DateTime(year: nat, month: nat, day: nat, hour: nat, minute: nat, second: nat)

  predicate LeapYear(y: nat) {
    (y % 4 == 0 && y % 100 != 0) || y % 400 == 0
  }

  function DaysInMonth(y: nat, m: nat): nat
    requires 1 <= m <= 12
  {
    if m == 2 then (if LeapYear(y) then 29 else 28)
    else if m == 4 || m == 6 || m == 9 || m == 11 then 30
    else 31
  }

  /** A moment Python's `datetime` can hold, restricted to four-digit years. */
  predicate Valid(t: DateTime) {
    && 1000 <= t.year <= 9999
    && 1 <= t.month <= 12
    && 1 <= t.day <= DaysInMonth(t.year, t.month)
    && t.hour < 24 && t.minute < 60 && t.second < 60
  }

  /** `t.strftime("%Y%m%d%H%M%S")`: fourteen digits, every field zero-padded. */
  function Format(t: DateTime): (r: string)
    requires Valid(t)
    ensures |r| == 14 && AllDigits(r)
  {
    Pad(t.year, 4) + Pad(t.month, 2) + Pad(t.day, 2) + Pad(t.hour, 2) + Pad(t.minute, 2) + Pad(t.second, 2)
  }

  /** Every field can be read back from its fixed position in the timestamp. */
  lemma FormatFields(t: DateTime)
    requires Valid(t)
    ensures var r := Format(t);
      && Value(r[0..4]) == t.year && Value(r[4..6]) == t.month && Value(r[6..8]) == t.day
      && Value(r[8..10]) == t.hour && Value(r[10..12]) == t.minute && Value(r[12..14]) == t.second
  {
    var r := Format(t);
    assert Pow10(4) == 10000 && Pow10(2) == 100 by {
      assert Pow10(1) == 10;
      assert Pow10(3) == 1000;
    }
    PadValue(t.year, 4);
    PadValue(t.month, 2);
    PadValue(t.day, 2);
    PadValue(t.hour, 2);
    PadValue(t.minute, 2);
    PadValue(t.second, 2);
    assert r[0..4] == Pad(t.year, 4);
    assert r[4..6] == Pad(t.month, 2);
    assert r[6..8] == Pad(t.day, 2);
    assert r[8..10] == Pad(t.hour, 2);
    assert r[10..12] == Pad(t.minute, 2);
    assert r[12..14] == Pad(t.second, 2);
  }

  /** Distinct moments get distinct timestamps (at one-second resolution). */
  lemma FormatInjective(a: DateTime, b: DateTime)
    requires Valid(a) && Valid(b)
    requires Format(a) == Format(b)
    ensures a == b
  {
    FormatFields(a);
    FormatFields(b);
  }
}
