/**
  Calendar dates as the task line stores them: `YYYY-MM-DD` (the source's
  `TaskRegularExpressions.dateFormat`). A date is a (year, month, day) triple compared
  lexicographically, which is moment's `isBefore`/`isAfter`/`isSame` on start-of-day values.
*/
module Dates {
  import opened Text

  datatype Date = Date(year: nat, month: nat, day: nat)

  /** moment's `format('YYYY-MM-DD')`: zero-padded year, month and day. */
  function Format(d: Date): string
  {
    Decimal(d.year, 4) + "-" + Decimal(d.month, 2) + "-" + Decimal(d.day, 2)
  }

  /** Text matching `\d{4}-\d{2}-\d{2}`. */
  predicate IsDateText(t: string) {
    && |t| == 10
    && AllDigits(t[..4]) && t[4] == '-'
    && AllDigits(t[5..7]) && t[7] == '-'
    && AllDigits(t[8..])
  }

  /** Date text is ASCII, so its JavaScript `.length` is its ten characters. */
  lemma DateTextUtf16(t: string)
    requires IsDateText(t)
    ensures Utf16Length(t) == 10
  {
    forall i | 0 <= i < |t| ensures !IsAstral(t[i]) {
      if i < 4 {
        assert t[..4][i] == t[i];
      } else if 4 < i < 7 {
        assert t[5..7][i - 5] == t[i];
      } else if i > 7 {
        assert t[8..][i - 8] == t[i];
      }
    }
    Utf16Narrow(t);
  }

  /** `moment(t, 'YYYY-MM-DD')` on a matched date text. */
  function Parse(t: string): Date
    requires IsDateText(t)
  {
    Date(DigitsValue(t[..4]), DigitsValue(t[5..7]), DigitsValue(t[8..]))
  }

  /** Dates whose fields fit the four- and two-digit fields of the format. */
  predicate Printable(d: Date) {
    d.year < 10000 && d.month < 100 && d.day < 100
  }

  /** Formatting a printable date gives date text that parses back to the same date. */
  lemma ParseFormat(d: Date)
    requires Printable(d)
    ensures IsDateText(Format(d))
    ensures Parse(Format(d)) == d
  {
    DecimalWidth(d.year, 4);
    DecimalWidth(d.month, 2);
    DecimalWidth(d.day, 2);
    var t := Format(d);
    assert t[..4] == Decimal(d.year, 4);
    assert t[5..7] == Decimal(d.month, 2);
    assert t[8..] == Decimal(d.day, 2);
    DecimalValue(d.year, 4);
    DecimalValue(d.month, 2);
    DecimalValue(d.day, 2);
  }

  /** Parsing date text and formatting the date reproduces the text. */
  lemma FormatParse(t: string)
    requires IsDateText(t)
    ensures Printable(Parse(t))
    ensures Format(Parse(t)) == t
  {
    DecimalOfDigits(t[..4]);
    DecimalOfDigits(t[5..7]);
    DecimalOfDigits(t[8..]);
    DigitsBound(t[..4]);
    DigitsBound(t[5..7]);
    DigitsBound(t[8..]);
    assert t == t[..4] + "-" + t[5..7] + "-" + t[8..];
  }

  lemma {:induction false} DigitsBound(s: string)
    requires AllDigits(s)
    ensures DigitsValue(s) < Pow10(|s|)
    decreases |s|
  {
    if s != [] {
      DigitsBound(s[..|s| - 1]);
    }
  }

  /** moment's `isBefore` on two start-of-day dates. */
  predicate Before(a: Date, b: Date) {
    || a.year < b.year
    || (a.year == b.year && a.month < b.month)
    || (a.year == b.year && a.month == b.month && a.day < b.day)
  }

  /** moment's `isAfter`. */
  predicate After(a: Date, b: Date) {
    Before(b, a)
  }
}
