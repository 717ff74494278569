/** Calendar dates as the period filters see them: `LocalDate.parse(date, ISO_DATE)`
    on the stored "yyyy-MM-dd" text, and `LocalDate` comparison. */
module Dates {
  import opened Maybe
  import opened Text
  import opened Digits

  /** A day of the proleptic Gregorian calendar, as `java.time.LocalDate` holds it. */
  datatype Date = Date(year: int, month: int, day: int)

  predicate IsLeapYear(y: int) {
    y % 4 == 0 && (y % 100 != 0 || y % 400 == 0)
  }

  function DaysInMonth(y: int, m: int): (n: int)
    requires 1 <= m <= 12
    ensures 28 <= n <= 31
  {
    if m == 2 then (if IsLeapYear(y) then 29 else 28)
    else if m == 4 || m == 6 || m == 9 || m == 11 then 30
    else 31
  }

  /** A real day of a real month whose year fits the four-digit storage form. */
  predicate Valid(d: Date) {
    0 <= d.year <= 9999 && 1 <= d.month <= 12 && 1 <= d.day <= DaysInMonth(d.year, d.month)
  }

  /** `a <= b` in calendar order (`LocalDate.compareTo(a, b) <= 0`). */
  predicate CalendarLe(a: Date, b: Date) {
    a.year < b.year || (a.year == b.year && (a.month < b.month || (a.month == b.month && a.day <= b.day)))
  }

  lemma Pow10Widths()
    ensures Pow10(2) == 100 && Pow10(4) == 10000
  {
    assert Pow10(1) == 10;
    assert Pow10(3) == 1000;
  }

  /** The canonical storage text "yyyy-MM-dd", zero-padded. */
  function Iso(d: Date): (s: string)
    requires Valid(d)
    ensures |s| == 10
  {
    Pow10Widths();
    Pad(d.year, 4) + "-" + Pad(d.month, 2) + "-" + Pad(d.day, 2)
  }

  /** `LocalDate.parse(s, DateTimeFormatter.ISO_DATE)` on the plain "yyyy-MM-dd" form:
      fixed-width digit fields, and the strict resolver rejects a day the month does not have. */
  function Parse(s: string): (r: Option<Date>)
    ensures r.Some? ==> Valid(r.value)
  {
    if |s| == 10 && s[4] == '-' && s[7] == '-'
       && AllDigits(s[..4]) && AllDigits(s[5..7]) && AllDigits(s[8..])
    then
      var d := Date(Value(s[..4]), Value(s[5..7]), Value(s[8..]));
      if Valid(d) then Some(d) else None
    else None
  }

  /** Every valid date's storage text parses back to that date. */
  lemma ParseIso(d: Date)
    requires Valid(d)
    ensures Parse(Iso(d)) == Some(d)
  {
    Pow10Widths();
    var s := Iso(d);
    assert s[..4] == Pad(d.year, 4);
    assert s[5..7] == Pad(d.month, 2);
    assert s[8..] == Pad(d.day, 2);
  }

  /** Whatever text parses to a date is exactly that date's storage text. */
  lemma IsoParse(s: string, d: Date)
    requires Parse(s) == Some(d)
    ensures Iso(d) == s
  {
    Pow10Widths();
    PadValue(s[..4]);
    PadValue(s[5..7]);
    PadValue(s[8..]);
    assert s == s[..4] + "-" + s[5..7] + "-" + s[8..];
  }

  /** Prefixing both sides with the same separator does not change their order. */
  lemma LexLeDash(x: string, y: string)
    ensures LexLe("-" + x, "-" + y) <==> LexLe(x, y)
  {
    LexLeAppend("-", x, "-", y);
  }

  /** On zero-padded fields of one width, text order and equality are numeric. */
  lemma PadOrder(a: nat, b: nat, width: nat)
    requires a < Pow10(width) && b < Pow10(width)
    ensures LexLe(Pad(a, width), Pad(b, width)) <==> a <= b
    ensures Pad(a, width) == Pad(b, width) <==> a == b
  {
    LexLeDigits(Pad(a, width), Pad(b, width));
  }

  /** For valid dates, comparing the storage texts as strings agrees with calendar order,
      so sorting the stored text sorts by date. */
  lemma IsoOrder(a: Date, b: Date)
    requires Valid(a) && Valid(b)
    ensures LexLe(Iso(a), Iso(b)) <==> CalendarLe(a, b)
  {
    Pow10Widths();
    var ya, ma, da := Pad(a.year, 4), Pad(a.month, 2), Pad(a.day, 2);
    var yb, mb, db := Pad(b.year, 4), Pad(b.month, 2), Pad(b.day, 2);
    var ra, rb := ("-" + ma) + ("-" + da), ("-" + mb) + ("-" + db);
    assert Iso(a) == ya + ra;
    assert Iso(b) == yb + rb;
    LexLeAppend(ya, ra, yb, rb);
    LexLeAppend("-" + ma, "-" + da, "-" + mb, "-" + db);
    LexLeDash(ma, mb);
    LexLeDash(da, db);
    assert "-" + ma == "-" + mb <==> ma == mb by {
      if "-" + ma == "-" + mb {
        assert ma == ("-" + ma)[1..];
        assert mb == ("-" + mb)[1..];
      }
    }
    PadOrder(a.year, b.year, 4);
    PadOrder(a.month, b.month, 2);
    PadOrder(a.day, b.day, 2);
  }
}
