/** Calendar dates of the proleptic Gregorian calendar, as JavaScript's `Date`
    counts them, and the `YYYY-MM-DD` day keys the application builds from
    them (`formatDateLocal`, duplicated in several components). A moment in
    time is reduced to the calendar day it falls on; the time zone that
    decides that day is left to the caller. */
module Dates {
  import opened Common
  import opened Text

  datatype Date = Date(year: int, month: int, day: int)

  predicate IsLeapYear(y: int) {
    (y % 4 == 0 && y % 100 != 0) || y % 400 == 0
  }

  function DaysInMonth(y: int, m: int): int
    requires 1 <= m <= 12
  {
    if m == 2 then (if IsLeapYear(y) then 29 else 28)
    else if m == 4 || m == 6 || m == 9 || m == 11 then 30
    else 31
  }

  /** A date that exists in the calendar. */
  predicate Valid(d: Date) {
    1 <= d.month <= 12 && 1 <= d.day <= DaysInMonth(d.year, d.month)
  }

  /** Chronological order. */
  predicate Before(a: Date, b: Date) {
    || a.year < b.year
    || (a.year == b.year && a.month < b.month)
    || (a.year == b.year && a.month == b.month && a.day < b.day)
  }

  predicate BeforeOrSame(a: Date, b: Date) {
    a == b || Before(a, b)
  }

  /** The next calendar day, rolling over month and year ends. */
  function NextDay(d: Date): (r: Date)
    requires Valid(d)
    ensures Valid(r) && Before(d, r)
  {
    if d.day < DaysInMonth(d.year, d.month) then Date(d.year, d.month, d.day + 1)
    else if d.month < 12 then Date(d.year, d.month + 1, 1)
    else Date(d.year + 1, 1, 1)
  }

  /** The previous calendar day (JavaScript `setDate(getDate() - 1)`). */
  function PrevDay(d: Date): (r: Date)
    requires Valid(d)
    ensures Valid(r) && Before(r, d)
  {
    if d.day > 1 then Date(d.year, d.month, d.day - 1)
    else if d.month > 1 then Date(d.year, d.month - 1, DaysInMonth(d.year, d.month - 1))
    else Date(d.year - 1, 12, 31)
  }

  /** NextDay is the successor in chronological order: no valid date lies
      strictly between a date and the one NextDay gives. */
  lemma NextDayIsImmediate(d: Date, x: Date)
    requires Valid(d) && Valid(x) && Before(d, x)
    ensures BeforeOrSame(NextDay(d), x)
  {
  }

  /** PrevDay is the predecessor in chronological order. */
  lemma PrevDayIsImmediate(d: Date, x: Date)
    requires Valid(d) && Valid(x) && Before(x, d)
    ensures BeforeOrSame(x, PrevDay(d))
  {
  }

  lemma NextThenPrev(d: Date)
    requires Valid(d)
    ensures PrevDay(NextDay(d)) == d
  {
  }

  lemma PrevThenNext(d: Date)
    requires Valid(d)
    ensures NextDay(PrevDay(d)) == d
  {
  }

  /** `n` days later. */
  function AddDays(d: Date, n: nat): (r: Date)
    requires Valid(d)
    ensures Valid(r)
  {
    if n == 0 then d else NextDay(AddDays(d, n - 1))
  }

  /** `n` days earlier. */
  function DaysBack(d: Date, n: nat): (r: Date)
    requires Valid(d)
    ensures Valid(r)
  {
    if n == 0 then d else PrevDay(DaysBack(d, n - 1))
  }

  lemma {:induction false} AddDaysShift(d: Date, n: nat)
    requires Valid(d)
    ensures AddDays(d, n + 1) == AddDays(NextDay(d), n)
  {
    if n > 0 {
      AddDaysShift(d, n - 1);
    }
  }

  /** Going `n` days back and then `n` days forward returns to the start. */
  lemma {:induction false} AddDaysAfterDaysBack(d: Date, n: nat)
    requires Valid(d)
    ensures AddDays(DaysBack(d, n), n) == d
  {
    if n > 0 {
      var x := DaysBack(d, n - 1);
      AddDaysShift(PrevDay(x), n - 1);
      PrevThenNext(x);
      AddDaysAfterDaysBack(d, n - 1);
    }
  }

  /** Walking forward visits strictly later dates. */
  lemma {:induction false} AddDaysIncreasing(d: Date, j: nat, k: nat)
    requires Valid(d) && j < k
    ensures Before(AddDays(d, j), AddDays(d, k))
    decreases k
  {
    if j < k - 1 {
      AddDaysIncreasing(d, j, k - 1);
    }
  }

  /** Walking back visits strictly earlier dates. */
  lemma {:induction false} DaysBackDecreasing(d: Date, j: nat, k: nat)
    requires Valid(d) && j < k
    ensures Before(DaysBack(d, k), DaysBack(d, j))
    decreases k
  {
    if j < k - 1 {
      DaysBackDecreasing(d, j, k - 1);
    }
  }

  /** Within one month, counting from its first day. */
  lemma {:induction false} AddDaysWithinMonth(y: int, m: int, k: nat)
    requires 1 <= m <= 12 && k < DaysInMonth(y, m)
    ensures AddDays(Date(y, m, 1), k) == Date(y, m, k + 1)
  {
    if k > 0 {
      AddDaysWithinMonth(y, m, k - 1);
    }
  }

  /** `formatDateLocal`: `${year}-${MM}-${DD}`, month and day zero-padded to
      two digits, the year as `String(year)`. */
  function Format(d: Date): (r: string)
    requires Valid(d)
  {
    IntToString(d.year) + "-" + Pad2(NatToString(d.month)) + "-" + Pad2(NatToString(d.day))
  }

  /** Reads a day key back: the year is everything before the last six
      characters `-MM-DD`. */
  function ParseKey(s: string): Option<Date> {
    var n := |s|;
    if n < 7 || s[n - 6] != '-' || s[n - 3] != '-' then None
    else if !AllDigits(s[n - 5..n - 3]) || !AllDigits(s[n - 2..]) then None
    else
      match IntValue(s[..n - 6])
      case None => None
      case Some(y) => Some(Date(y, DecimalValue(s[n - 5..n - 3]), DecimalValue(s[n - 2..])))
  }

  /** The month and day of a key are always two digits each. */
  lemma FormatParts(d: Date)
    requires Valid(d)
    ensures var s := Format(d); var n := |s|;
      && n >= 7 && s[..n - 6] == IntToString(d.year)
      && s[n - 6] == '-' && s[n - 3] == '-'
      && s[n - 5..n - 3] == Pad2(NatToString(d.month))
      && s[n - 2..] == Pad2(NatToString(d.day))
  {
    Pad2Digits(d.month);
    Pad2Digits(d.day);
    var y := IntToString(d.year);
    var mm := Pad2(NatToString(d.month));
    var dd := Pad2(NatToString(d.day));
    var s := Format(d);
    assert s == y + "-" + mm + "-" + dd;
    var n := |s|;
    assert n == |y| + 6;
    assert s[..n - 6] == y;
    assert s[n - 5..n - 3] == mm;
    assert s[n - 2..] == dd;
  }

  /** Every key reads back as the date it was made from. */
  lemma ParseFormat(d: Date)
    requires Valid(d)
    ensures ParseKey(Format(d)) == Some(d)
  {
    FormatParts(d);
    Pad2Digits(d.month);
    Pad2Digits(d.day);
    IntValueOfIntToString(d.year);
  }

  /** Distinct dates have distinct keys. */
  lemma FormatInjective(a: Date, b: Date)
    requires Valid(a) && Valid(b) && Format(a) == Format(b)
    ensures a == b
  {
    ParseFormat(a);
    ParseFormat(b);
  }

  /** For a four-digit year the key has the fixed shape `YYYY-MM-DD`. */
  lemma FormatFourDigitYear(d: Date)
    requires Valid(d) && 1000 <= d.year <= 9999
    ensures var s := Format(d);
      && |s| == 10 && s[4] == '-' && s[7] == '-'
      && s[..4] == NatToString(d.year) && AllDigits(s[..4])
      && s[5..7] == Pad2(NatToString(d.month)) && AllDigits(s[5..7])
      && s[8..] == Pad2(NatToString(d.day)) && AllDigits(s[8..])
  {
    NatToStringWidth(d.year);
    FormatParts(d);
    Pad2Digits(d.month);
    Pad2Digits(d.day);
  }

  lemma DashThen(u: string, v: string)
    ensures LexLess("-" + u, "-" + v) <==> LexLess(u, v)
  {
    LexLessConcat("-", u, "-", v);
    LexLessIrreflexive("-");
  }

  /** A fixed-width digit field followed by more text: compare the numbers,
      then the rest. */
  lemma {:induction false} FieldThen(x: string, u: string, x2: string, v: string)
    requires |x| == |x2| && AllDigits(x) && AllDigits(x2)
    ensures LexLess(x + u, x2 + v) <==>
      DecimalValue(x) < DecimalValue(x2) || (DecimalValue(x) == DecimalValue(x2) && LexLess(u, v))
  {
    LexLessDigits(x, x2);
    LexLessConcat(x, u, x2, v);
  }

  /** `y-m-d` from its three fields. */
  function JoinKey(y: string, m: string, d: string): string {
    y + ("-" + (m + ("-" + d)))
  }

  /** `M-D` against `M-D`. */
  lemma {:induction false} MonthDayOrder(ma: string, da: string, mb: string, db: string)
    requires |ma| == |mb| && |da| == |db| && AllDigits(ma) && AllDigits(mb) && AllDigits(da) && AllDigits(db)
    ensures LexLess(ma + ("-" + da), mb + ("-" + db)) <==>
      DecimalValue(ma) < DecimalValue(mb) || (DecimalValue(ma) == DecimalValue(mb) && DecimalValue(da) < DecimalValue(db))
  {
    FieldThen(ma, "-" + da, mb, "-" + db);
    DashThen(da, db);
    LexLessDigits(da, db);
  }

  /** The string order on `Y-M-D` shapes with fixed-width digit fields is
      the order on (year, month, day) numbers. */
  lemma {:induction false} KeyFieldsOrder(ya: string, ma: string, da: string, yb: string, mb: string, db: string)
    requires |ya| == |yb| && |ma| == |mb| && |da| == |db|
    requires AllDigits(ya) && AllDigits(yb) && AllDigits(ma) && AllDigits(mb) && AllDigits(da) && AllDigits(db)
    ensures LexLess(JoinKey(ya, ma, da), JoinKey(yb, mb, db)) <==>
      Before(Date(DecimalValue(ya), DecimalValue(ma), DecimalValue(da)), Date(DecimalValue(yb), DecimalValue(mb), DecimalValue(db)))
  {
    var ua, ub := ma + ("-" + da), mb + ("-" + db);
    FieldThen(ya, "-" + ua, yb, "-" + ub);
    DashThen(ua, ub);
    MonthDayOrder(ma, da, mb, db);
  }

  lemma FormatFields(d: Date)
    requires Valid(d) && 1000 <= d.year <= 9999
    ensures var y := NatToString(d.year); var m := Pad2(NatToString(d.month)); var dd := Pad2(NatToString(d.day));
      && Format(d) == JoinKey(y, m, dd)
      && |y| == 4 && |m| == 2 && |dd| == 2 && AllDigits(y) && AllDigits(m) && AllDigits(dd)
      && DecimalValue(y) == d.year && DecimalValue(m) == d.month && DecimalValue(dd) == d.day
  {
    NatToStringWidth(d.year);
    DecimalValueOfNatToString(d.year);
    Pad2Digits(d.month);
    Pad2Digits(d.day);
  }

  /** For four-digit years, comparing day keys as strings is comparing the
      dates: `key < todayKey` means the date is before today. */
  lemma FormatOrder(a: Date, b: Date)
    requires Valid(a) && Valid(b) && 1000 <= a.year <= 9999 && 1000 <= b.year <= 9999
    ensures LexLess(Format(a), Format(b)) <==> Before(a, b)
  {
    FormatFields(a);
    FormatFields(b);
    KeyFieldsOrder(NatToString(a.year), Pad2(NatToString(a.month)), Pad2(NatToString(a.day)),
                   NatToString(b.year), Pad2(NatToString(b.month)), Pad2(NatToString(b.day)));
  }

  /** `<=` on four-digit-year day keys is `BeforeOrSame` on the dates. */
  lemma FormatOrderOrSame(a: Date, b: Date)
    requires Valid(a) && Valid(b) && 1000 <= a.year <= 9999 && 1000 <= b.year <= 9999
    ensures LexLessEq(Format(a), Format(b)) <==> BeforeOrSame(a, b)
  {
    FormatOrder(a, b);
    if Format(a) == Format(b) {
      FormatInjective(a, b);
    }
  }
}
