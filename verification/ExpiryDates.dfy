/** Calendar dates written YYYY-MM-DD, compared as strings. */
module ExpiryDates {
  import opened Options
  import opened Ordering
  import Text

  datatype Date = Date(year: nat, month: nat, day: nat) {
    predicate Valid() { year <= 9999 && 1 <= month <= 12 && 1 <= day <= DaysIn(year, month) }

    predicate Before(d: Date) {
      year < d.year || (year == d.year && (month < d.month || (month == d.month && day < d.day)))
    }

    /** The layout 2006-01-02. */
    function Format(): string
      requires Valid()
    {
      Padded(year, 4) + "-" + Padded(month, 2) + "-" + Padded(day, 2)
    }
  }

  function DaysIn(year: nat, month: nat): (days: nat)
    ensures days <= 31
  {
    if month == 2 then (if year % 4 == 0 && (year % 100 != 0 || year % 400 == 0) then 29 else 28)
    else if month in [4, 6, 9, 11] then 30
    else 31
  }

  /** The days of the Gregorian calendar before a year. */
  function DaysBefore(year: nat): nat { 365 * year + (year + 3) / 4 - (year + 99) / 100 + (year + 399) / 400 }

  lemma NextMultiple(y: nat)
    ensures (y + 4) / 4 - (y + 3) / 4 == if y % 4 == 0 then 1 else 0
  {
  }

  lemma NextCentury(y: nat)
    ensures (y + 100) / 100 - (y + 99) / 100 == if y % 100 == 0 then 1 else 0
  {
  }

  lemma NextCycle(y: nat)
    ensures (y + 400) / 400 - (y + 399) / 400 == if y % 400 == 0 then 1 else 0
  {
  }

  lemma MultiplesNest(y: nat)
    ensures y % 400 == 0 ==> y % 100 == 0
    ensures y % 100 == 0 ==> y % 4 == 0
  {
    assert y == 400 * (y / 400) + y % 400 && y == 100 * (y / 100) + y % 100;
    assert y % 400 == 0 ==> y == 100 * (4 * (y / 400));
    assert y % 100 == 0 ==> y == 4 * (25 * (y / 100));
  }

  /** The months add up to the year, the four short ones besides February have thirty days, and the seven
      long ones thirty-one. */
  lemma MonthsMakeTheYear(year: nat)
    ensures 4 * 30 + 7 * 31 + DaysIn(year, 2) == DaysBefore(year + 1) - DaysBefore(year)
    ensures DaysIn(year, 4) == DaysIn(year, 6) == DaysIn(year, 9) == DaysIn(year, 11) == 30
    ensures forall month :: month in {1, 3, 5, 7, 8, 10, 12} ==> DaysIn(year, month) == 31
  {
    NextMultiple(year);
    NextCentury(year);
    NextCycle(year);
    MultiplesNest(year);
  }

  /** The days around the ends of months and of the range of years. */
  lemma CalendarEnds()
    ensures Date(0, 1, 1).Valid() && Date(9999, 12, 31).Valid() && !Date(10000, 1, 1).Valid()
    ensures Date(2024, 2, 29).Valid() && !Date(2023, 2, 29).Valid() && !Date(2100, 2, 29).Valid()
    ensures Date(2000, 2, 29).Valid() && !Date(2024, 4, 31).Valid() && Date(2024, 5, 31).Valid()
    ensures !Date(2024, 1, 0).Valid() && !Date(2024, 0, 1).Valid() && !Date(2024, 13, 1).Valid()
  {
  }

  /** The last `width` decimal digits of `n`. */
  function Padded(n: nat, width: nat): (s: string)
    ensures |s| == width
  {
    if width == 0 then "" else Padded(n / 10, width - 1) + [Text.Digit(n % 10)]
  }

  function Power(width: nat): nat { if width == 0 then 1 else 10 * Power(width - 1) }

  lemma {:induction false} PaddedOrder(m: nat, n: nat, width: nat)
    requires m < Power(width) && n < Power(width)
    ensures m == n <==> Padded(m, width) == Padded(n, width)
    ensures m <= n <==> StringLeq(Padded(m, width), Padded(n, width))
  {
    if width == 0 {
    } else {
      var p, q := Padded(m / 10, width - 1), Padded(n / 10, width - 1);
      PaddedOrder(m / 10, n / 10, width - 1);
      CompareConcat(p, [Text.Digit(m % 10)], q, [Text.Digit(n % 10)]);
      assert Padded(m, width)[..width - 1] == p && Padded(n, width)[..width - 1] == q;
      assert Padded(m, width)[width - 1] == Text.Digit(m % 10) && Padded(n, width)[width - 1] == Text.Digit(n % 10);
    }
  }

  /** Texts of equal length are compared part by part. */
  lemma {:induction false} CompareConcat(p: string, s: string, q: string, t: string)
    requires |p| == |q|
    ensures StringLeq(p + s, q + t) <==> (p != q && StringLeq(p, q)) || (p == q && StringLeq(s, t))
  {
    if p == [] {
      assert p + s == s && q + t == t;
    } else {
      assert (p + s)[1..] == p[1..] + s && (q + t)[1..] == q[1..] + t;
      CompareConcat(p[1..], s, q[1..], t);
      assert p == [p[0]] + p[1..] && q == [q[0]] + q[1..];
    }
  }

  lemma FormatParts(d: Date)
    requires d.Valid()
    ensures var s := d.Format();
      && |s| == 10 && s[4] == '-' && s[7] == '-'
      && s[..4] == Padded(d.year, 4) && s[5..7] == Padded(d.month, 2) && s[8..] == Padded(d.day, 2)
  {
  }

  lemma FormatNested(d: Date)
    requires d.Valid()
    ensures d.Format() == Padded(d.year, 4) + ("-" + (Padded(d.month, 2) + ("-" + Padded(d.day, 2))))
  {
  }

  lemma CompareBehindDash(s: string, t: string)
    ensures StringLeq("-" + s, "-" + t) <==> StringLeq(s, t)
    ensures "-" + s == "-" + t <==> s == t
  {
    CompareConcat("-", s, "-", t);
    assert ("-" + s)[1..] == s && ("-" + t)[1..] == t;
  }

  /** Comparing formatted dates as strings compares the days. */
  lemma DateOrder(a: Date, b: Date)
    requires a.Valid() && b.Valid()
    ensures StringLeq(a.Format(), b.Format()) <==> !b.Before(a)
    ensures a.Format() == b.Format() <==> a == b
  {
    var ya, ma, da := Padded(a.year, 4), Padded(a.month, 2), Padded(a.day, 2);
    var yb, mb, db := Padded(b.year, 4), Padded(b.month, 2), Padded(b.day, 2);
    assert Power(2) == 100 && Power(4) == 10000;
    PaddedOrder(a.year, b.year, 4);
    PaddedOrder(a.month, b.month, 2);
    PaddedOrder(a.day, b.day, 2);
    FormatNested(a);
    FormatNested(b);
    FormatParts(a);
    FormatParts(b);
    CompareConcat(ya, "-" + (ma + ("-" + da)), yb, "-" + (mb + ("-" + db)));
    CompareBehindDash(ma + ("-" + da), mb + ("-" + db));
    CompareConcat(ma, "-" + da, mb, "-" + db);
    CompareBehindDash(da, db);
  }

  /** time.Parse with the layout 2006-01-02. */
  function Parse(s: string): (d: Option<Date>)
    ensures d.Some? ==> d.value.Valid()
  {
    if |s| == 10 && s[4] == '-' && s[7] == '-' && Text.Digits(s[..4]) && Text.Digits(s[5..7]) &&
      Text.Digits(s[8..]) then
      var d := Date(Text.Value(s[..4]), Text.Value(s[5..7]), Text.Value(s[8..]));
      if d.Valid() then Some(d) else None
    else None
  }

  lemma {:induction false} ValuePadded(n: nat, width: nat)
    requires n < Power(width)
    ensures Text.Digits(Padded(n, width)) && Text.Value(Padded(n, width)) == n
  {
    if width == 0 {
    } else {
      ValuePadded(n / 10, width - 1);
      var s := Padded(n, width);
      assert s[..width - 1] == Padded(n / 10, width - 1);
    }
  }

  lemma {:induction false} PaddedValue(s: string)
    requires Text.Digits(s)
    ensures Padded(Text.Value(s), |s|) == s
  {
    if s == [] {
    } else {
      var init, last := s[..|s| - 1], s[|s| - 1];
      PaddedValue(init);
      assert Text.Value(s) == Text.Value(init) * 10 + (last as int - '0' as int);
      assert Text.Value(s) / 10 == Text.Value(init) && Text.Value(s) % 10 == last as int - '0' as int;
      assert s == init + [last];
    }
  }

  lemma {:induction false} FormatParses(d: Date)
    requires d.Valid()
    ensures Parse(d.Format()) == Some(d)
  {
    assert Power(2) == 100 && Power(4) == 10000;
    ValuePadded(d.year, 4);
    ValuePadded(d.month, 2);
    ValuePadded(d.day, 2);
    FormatParts(d);
  }

  lemma {:induction false} ParsesFormat(s: string, d: Date)
    requires Parse(s) == Some(d)
    ensures d.Valid() && d.Format() == s
  {
    PaddedValue(s[..4]);
    PaddedValue(s[5..7]);
    PaddedValue(s[8..]);
    assert s == s[..4] + "-" + s[5..7] + "-" + s[8..];
  }

  /** Exactly the formatted dates parse, each to itself. */
  lemma {:induction false} ParseIffFormat(s: string, d: Date)
    ensures Parse(s) == Some(d) <==> d.Valid() && d.Format() == s
  {
    if Parse(s) == Some(d) {
      ParsesFormat(s, d);
    } else if d.Valid() && d.Format() == s {
      FormatParses(d);
    }
  }
}
