/**
 * The request timestamp: `ISODateString` and its helper `pad`, applied to the
 * UTC fields of a date (`getUTCFullYear`, `getUTCMonth`, ...). The date
 * fields are inputs; the clock that produces them is not modelled.
 */
module Timestamp {
  import opened Wrappers

  /** The UTC fields of a date as JavaScript's getters return them; `month` counts from 0. */
  datatype UtcFields = UtcFields(year: int, month: nat, day: nat, hours: nat, minutes: nat, seconds: nat)

  function Digit(d: int): char
    requires 0 <= d < 10
  {
    "0123456789"[d]
  }

  predicate IsDigit(c: char)
  {
    '0' <= c <= '9'
  }

  predicate AllDigits(s: string)
  {
    forall i :: 0 <= i < |s| ==> IsDigit(s[i])
  }

  function DigitValue(c: char): int
    requires IsDigit(c)
  {
    c as int - '0' as int
  }

  /** `String(n)` for a non-negative integer. */
  function NatToDecimal(n: nat): string
    decreases n
  {
    if n < 10 then [Digit(n)] else NatToDecimal(n / 10) + [Digit(n % 10)]
  }

  /** The rendering is a non-empty string of digits. */
  lemma {:induction false} NatToDecimalDigits(n: nat)
    ensures NatToDecimal(n) != [] && AllDigits(NatToDecimal(n))
    decreases n
  {
    if n >= 10 {
      NatToDecimalDigits(n / 10);
    }
  }

  /** `String(i)` for any integer. */
  function IntToDecimal(i: int): string
  {
    if i < 0 then "-" + NatToDecimal(-i) else NatToDecimal(i)
  }

  /** The value of a string of decimal digits. */
  function DecimalValue(s: string): nat
    requires AllDigits(s)
  {
    if s == [] then 0 else 10 * DecimalValue(s[..|s| - 1]) + DigitValue(s[|s| - 1])
  }

  function Pow10(k: nat): nat
  {
    if k == 0 then 1 else 10 * Pow10(k - 1)
  }

  /** Reading the decimal rendering back gives the number. */
  lemma {:induction false} DecimalRoundTrip(n: nat)
    ensures AllDigits(NatToDecimal(n))
    ensures DecimalValue(NatToDecimal(n)) == n
    decreases n
  {
    var r := NatToDecimal(n);
    NatToDecimalDigits(n);
    if n >= 10 {
      DecimalRoundTrip(n / 10);
      assert r[..|r| - 1] == NatToDecimal(n / 10);
    }
  }

  /** The rendering has at most `k` digits exactly when the number is below 10^k. */
  lemma {:induction false} DecimalLength(n: nat, k: nat)
    requires k >= 1
    ensures |NatToDecimal(n)| <= k <==> n < Pow10(k)
    decreases n
  {
    if k == 1 {
    } else if n >= 10 {
      DecimalLength(n / 10, k - 1);
      assert n / 10 < Pow10(k - 1) <==> n < 10 * Pow10(k - 1);
    } else {
      assert Pow10(k) >= 10 by { PowAtLeastTen(k); }
    }
  }

  lemma {:induction false} PowAtLeastTen(k: nat)
    requires k >= 1
    ensures Pow10(k) >= 10
  {
    if k > 1 {
      PowAtLeastTen(k - 1);
    }
  }

  /** `pad`: a leading zero below ten, the plain number otherwise. */
  function Pad(n: nat): string
  {
    if n < 10 then "0" + NatToDecimal(n) else NatToDecimal(n)
  }

  /** `pad` gives exactly two characters for 0..99 and never otherwise; they are the tens and units digits. */
  lemma PadTwoDigits(n: nat)
    ensures |Pad(n)| == 2 <==> n < 100
    ensures n < 100 ==> Pad(n) == [Digit(n / 10), Digit(n % 10)]
  {
    if n >= 10 {
      DecimalLength(n, 2);
      if n < 100 {
        assert NatToDecimal(n / 10) == [Digit(n / 10)];
      }
    }
  }

  /** `ISODateString`: `YYYY-MM-DDTHH:MM:SSZ` with the month printed as `getUTCMonth() + 1`. */
  function IsoDateString(d: UtcFields): string
  {
    IntToDecimal(d.year) + "-" + Pad(d.month + 1) + "-" + Pad(d.day) + "T"
      + Pad(d.hours) + ":" + Pad(d.minutes) + ":" + Pad(d.seconds) + "Z"
  }

  /**
   * The `date-time` shape of RFC 3339, section 5.6, with a four-digit year,
   * no fractional seconds and the offset written `Z`.
   */
  predicate HasDateTimeShape(s: string)
  {
    && |s| == 20
    && s[4] == '-' && s[7] == '-' && s[10] == 'T' && s[13] == ':' && s[16] == ':' && s[19] == 'Z'
    && AllDigits(s[0..4]) && AllDigits(s[5..7]) && AllDigits(s[8..10])
    && AllDigits(s[11..13]) && AllDigits(s[14..16]) && AllDigits(s[17..19])
  }

  /** Reads a timestamp of that shape back into UTC fields. */
  function ParseTimestamp(s: string): Option<UtcFields>
  {
    if HasDateTimeShape(s) && DecimalValue(s[5..7]) >= 1 then
      Some(UtcFields(DecimalValue(s[0..4]), DecimalValue(s[5..7]) - 1, DecimalValue(s[8..10]),
                     DecimalValue(s[11..13]), DecimalValue(s[14..16]), DecimalValue(s[17..19])))
    else
      None
  }

  /** The field ranges a valid date has, with a year of four digits. */
  predicate InRange(d: UtcFields)
  {
    1000 <= d.year <= 9999 && d.month < 12 && 1 <= d.day <= 31
    && d.hours < 24 && d.minutes < 60 && d.seconds < 60
  }

  /** The fields other than the year are in their ranges. */
  predicate TimeOfYearInRange(d: UtcFields)
  {
    d.month < 12 && 1 <= d.day <= 31 && d.hours < 24 && d.minutes < 60 && d.seconds < 60
  }

  lemma DigitValueOfDigit(k: int)
    requires 0 <= k < 10
    ensures IsDigit(Digit(k)) && DigitValue(Digit(k)) == k
  {
    if k == 0 {} else if k == 1 {} else if k == 2 {} else if k == 3 {} else if k == 4 {}
    else if k == 5 {} else if k == 6 {} else if k == 7 {} else if k == 8 {} else {}
  }

  lemma TwoDigitValue(n: nat)
    requires n < 100
    ensures |Pad(n)| == 2 && AllDigits(Pad(n)) && DecimalValue(Pad(n)) == n
  {
    PadTwoDigits(n);
    var p := Pad(n);
    DigitValueOfDigit(n / 10);
    DigitValueOfDigit(n % 10);
    assert p[..1] == [Digit(n / 10)];
    assert p[..1][..0] == [];
    assert DecimalValue(p[..1]) == n / 10;
    assert DecimalValue(p) == 10 * (n / 10) + n % 10;
  }

  /** Where each part of the date half `YYYY-MM-DD` sits. */
  lemma DateLayout(y: string, mo: string, da: string)
    requires |y| == 4 && |mo| == 2 && |da| == 2
    ensures var date := y + "-" + mo + "-" + da;
      && |date| == 10 && date[4] == '-' && date[7] == '-'
      && date[0..4] == y && date[5..7] == mo && date[8..10] == da
  {
  }

  /** Where each part of the time half `HH:MM:SSZ` sits. */
  lemma TimeLayout(ho: string, mi: string, se: string)
    requires |ho| == 2 && |mi| == 2 && |se| == 2
    ensures var time := ho + ":" + mi + ":" + se + "Z";
      && |time| == 9 && time[2] == ':' && time[5] == ':' && time[8] == 'Z'
      && time[0..2] == ho && time[3..5] == mi && time[6..8] == se
  {
  }

  lemma Regroup(a: string, b: string, c: string)
    ensures a + b + c == a + (b + c)
  {
  }

  /** Where each part of a timestamp of this layout sits. */
  lemma TimestampLayout(y: string, mo: string, da: string, ho: string, mi: string, se: string)
    requires |y| == 4 && |mo| == 2 && |da| == 2 && |ho| == 2 && |mi| == 2 && |se| == 2
    ensures var s := y + "-" + mo + "-" + da + "T" + ho + ":" + mi + ":" + se + "Z";
      && |s| == 20
      && s[4] == '-' && s[7] == '-' && s[10] == 'T' && s[13] == ':' && s[16] == ':' && s[19] == 'Z'
      && s[0..4] == y && s[5..7] == mo && s[8..10] == da
      && s[11..13] == ho && s[14..16] == mi && s[17..19] == se
  {
    var date := y + "-" + mo + "-" + da;
    var head := date + "T";
    var time := ho + ":" + mi + ":" + se + "Z";
    DateLayout(y, mo, da);
    TimeLayout(ho, mi, se);
    Regroup(head, ho, ":");
    Regroup(head, ho + ":", mi);
    Regroup(head, ho + ":" + mi, ":");
    Regroup(head, ho + ":" + mi + ":", se);
    Regroup(head, ho + ":" + mi + ":" + se, "Z");
    var s := head + time;
    assert s[0..4] == date[0..4] && s[5..7] == date[5..7] && s[8..10] == date[8..10];
    assert s[11..13] == time[0..2] && s[14..16] == time[3..5] && s[17..19] == time[6..8];
  }

  /** A timestamp in range has the RFC 3339 shape and reads back as the same fields. */
  lemma IsoDateStringRoundTrip(d: UtcFields)
    requires InRange(d)
    ensures HasDateTimeShape(IsoDateString(d))
    ensures ParseTimestamp(IsoDateString(d)) == Some(d)
  {
    var y := NatToDecimal(d.year);
    DecimalLength(d.year, 4);
    DecimalLength(d.year, 3);
    DecimalRoundTrip(d.year);
    TwoDigitValue(d.month + 1);
    TwoDigitValue(d.day);
    TwoDigitValue(d.hours);
    TwoDigitValue(d.minutes);
    TwoDigitValue(d.seconds);
    assert IntToDecimal(d.year) == y;
    TimestampLayout(y, Pad(d.month + 1), Pad(d.day), Pad(d.hours), Pad(d.minutes), Pad(d.seconds));
  }

  /** A timestamp with the fields other than the year in range is the year's rendering followed by sixteen characters. */
  lemma IsoDateStringLength(d: UtcFields)
    requires TimeOfYearInRange(d)
    ensures |IsoDateString(d)| == |IntToDecimal(d.year)| + 16
    ensures IsoDateString(d)[..|IntToDecimal(d.year)|] == IntToDecimal(d.year)
  {
    PadTwoDigits(d.month + 1);
    PadTwoDigits(d.day);
    PadTwoDigits(d.hours);
    PadTwoDigits(d.minutes);
    PadTwoDigits(d.seconds);
  }

  /** Outside the years 1000 to 9999 the timestamp does not have the RFC 3339 shape. */
  lemma NoShapeOutsideFourDigits(d: UtcFields)
    requires TimeOfYearInRange(d) && !(1000 <= d.year <= 9999)
    ensures !HasDateTimeShape(IsoDateString(d))
  {
    var s := IsoDateString(d);
    var y := IntToDecimal(d.year);
    IsoDateStringLength(d);
    if d.year < 0 {
      assert y[0] == '-';
      assert s[0..4][0] == s[0];
    } else if d.year < 1000 {
      DecimalLength(d.year, 3);
    } else {
      DecimalLength(d.year, 4);
    }
  }

  /**
   * With the other fields in range, the timestamp has the RFC 3339 shape only
   * for years 1000 to 9999: `ISODateString` does not pad shorter years.
   */
  lemma ShapeNeedsFourDigitYear(d: UtcFields)
    requires TimeOfYearInRange(d)
    ensures HasDateTimeShape(IsoDateString(d)) <==> 1000 <= d.year <= 9999
  {
    if 1000 <= d.year <= 9999 {
      IsoDateStringRoundTrip(d);
    } else {
      NoShapeOutsideFourDigits(d);
    }
  }
}
