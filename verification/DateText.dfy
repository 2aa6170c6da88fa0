/** Dates as `YYYY-MM-DD`, where byte order is date order. */
module DateText {
  import opened CivilDate
  import opened Text

  predicate FourDigitYear(d: Date) {
    0 <= d.year <= 9999
  }

  function FormatDate(d: Date): (s: string)
    requires ValidDate(d) && FourDigitYear(d)
    ensures |s| == 10
  {
    Padded(d.year, 4) + "-" + Padded(d.month, 2) + "-" + Padded(d.day, 2)
  }

  lemma FormatDateSplit(d: Date)
    requires ValidDate(d) && FourDigitYear(d)
    ensures FormatDate(d) == Padded(d.year, 4) + ("-" + (Padded(d.month, 2) + ("-" + Padded(d.day, 2))))
  {
  }

  /** A printed date reads as its year, month and day. */
  lemma FormatDateReads(d: Date)
    requires ValidDate(d) && FourDigitYear(d)
    ensures var s := FormatDate(d);
      && IsDigits(s[..4]) && ReadNumber(s[..4]) == d.year && s[4] == '-'
      && IsDigits(s[5..7]) && ReadNumber(s[5..7]) == d.month && s[7] == '-'
      && IsDigits(s[8..]) && ReadNumber(s[8..]) == d.day
  {
    var s := FormatDate(d);
    assert Power10(4) == 10000 && Power10(2) == 100;
    PaddedReads(d.year, 4);
    PaddedReads(d.month, 2);
    PaddedReads(d.day, 2);
    assert s[..4] == Padded(d.year, 4) && s[5..7] == Padded(d.month, 2) && s[8..] == Padded(d.day, 2);
  }

  /** Comparing the printed dates compares the dates. */
  lemma DateOrderIsTextOrder(a: Date, b: Date)
    requires ValidDate(a) && ValidDate(b) && FourDigitYear(a) && FourDigitYear(b)
    ensures Less(FormatDate(a), FormatDate(b)) <==> DateBefore(a, b)
  {
    if DateBefore(a, b) {
      EarlierDatePrintsLess(a, b);
    } else if DateBefore(b, a) {
      EarlierDatePrintsLess(b, a);
      if Less(FormatDate(a), FormatDate(b)) {
        LessTransitive(FormatDate(a), FormatDate(b), FormatDate(a));
      }
      LessIrreflexive(FormatDate(a));
    } else {
      LessIrreflexive(FormatDate(a));
    }
  }

  lemma EarlierDatePrintsLess(a: Date, b: Date)
    requires ValidDate(a) && ValidDate(b) && FourDigitYear(a) && FourDigitYear(b)
    requires DateBefore(a, b)
    ensures Less(FormatDate(a), FormatDate(b))
  {
    FormatDateSplit(a);
    FormatDateSplit(b);
    var dayA, dayB := "-" + Padded(a.day, 2), "-" + Padded(b.day, 2);
    var restA, restB := "-" + (Padded(a.month, 2) + dayA), "-" + (Padded(b.month, 2) + dayB);
    assert Power10(4) == 10000 && Power10(2) == 100;
    if a.year < b.year {
      PaddedOrder(a.year, b.year, 4);
      LessBeforeSuffix(Padded(a.year, 4), Padded(b.year, 4), restA, restB);
    } else {
      LessAfterPrefix(Padded(a.year, 4), restA, restB);
      if a.month < b.month {
        PaddedOrder(a.month, b.month, 2);
        LessBeforeSuffix(Padded(a.month, 2), Padded(b.month, 2), dayA, dayB);
        LessAfterPrefix("-", Padded(a.month, 2) + dayA, Padded(b.month, 2) + dayB);
      } else {
        PaddedOrder(a.day, b.day, 2);
        LessAfterPrefix("-", Padded(a.day, 2), Padded(b.day, 2));
        LessAfterPrefix(Padded(a.month, 2), dayA, dayB);
        LessAfterPrefix("-", Padded(a.month, 2) + dayA, Padded(b.month, 2) + dayB);
      }
    }
  }
}
