/** The `MM/DD/YYYY` date pattern used by the booking, room-listing and booking-history
    prompts, and the reading of an accepted string as the date it spells (the month, day
    and year tokens; a final line terminator the pattern lets through is not part of it). */
module Dates {
  import opened Seqs

  /** Month, day and year of a date string, as the store reads it. */
  datatype Mdy = Mdy(month: nat, day: nat, year: nat)

  /** The triples the pattern can produce: month 1..12, day 1..31, a year of four digits.
      Whether the day exists in that month is not part of the pattern. */
  type Date = d: Mdy | 1 <= d.month <= 12 && 1 <= d.day <= 31 && d.year <= 9999 witness Mdy(1, 1, 0)

  /** `\d` of java.util.regex: the ASCII digits only. */
  predicate IsDigit(c: char) {
    '0' <= c <= '9'
  }

  predicate IsNonZeroDigit(c: char) {
    '1' <= c <= '9'
  }

  predicate AllDigits(t: string) {
    forall k :: 0 <= k < |t| ==> IsDigit(t[k])
  }

  function DigitValue(c: char): nat
    requires IsDigit(c)
  {
    c as int - '0' as int
  }

  /** The decimal value of a string of digits. */
  function Value(t: string): nat
    requires AllDigits(t)
    decreases |t|
  {
    if t == [] then 0 else 10 * Value(t[..|t| - 1]) + DigitValue(t[|t| - 1])
  }

  /** `(0?[1-9]|1[0-2])` */
  predicate MonthToken(t: string) {
    || (|t| == 1 && IsNonZeroDigit(t[0]))
    || (|t| == 2 && t[0] == '0' && IsNonZeroDigit(t[1]))
    || (|t| == 2 && t[0] == '1' && '0' <= t[1] <= '2')
  }

  /** `(0?[1-9]|[12][0-9]|3[01])` */
  predicate DayToken(t: string) {
    || (|t| == 1 && IsNonZeroDigit(t[0]))
    || (|t| == 2 && t[0] == '0' && IsNonZeroDigit(t[1]))
    || (|t| == 2 && (t[0] == '1' || t[0] == '2') && IsDigit(t[1]))
    || (|t| == 2 && t[0] == '3' && (t[1] == '0' || t[1] == '1'))
  }

  /** What java.util.regex lets `$` (without MULTILINE) stand before: the end of the input,
      or one line terminator that ends the input (`\n`, `\r`, `\r\n`, U+0085, U+2028, U+2029). */
  predicate FinalTerminator(t: string) {
    || t == []
    || t == ['\n'] || t == ['\r'] || t == ['\r', '\n']
    || t == ['\U{0085}'] || t == ['\U{2028}'] || t == ['\U{2029}']
  }

  /** `\d{4}$` */
  predicate YearTail(t: string) {
    |t| >= 4 && AllDigits(t[..4]) && FinalTerminator(t[4..])
  }

  /** `Pattern.compile("^(0?[1-9]|1[0-2])\\/(0?[1-9]|[12][0-9]|3[01])\\/\\d{4}$").matcher(s).find()`,
      stated as the regular language it denotes: some split of `s` around two slashes. */
  ghost predicate MatchesDatePattern(s: string) {
    exists i, j :: 0 <= i < j < |s| && s[i] == '/' && s[j] == '/'
      && MonthToken(s[..i]) && DayToken(s[i + 1..j]) && YearTail(s[j + 1..])
  }

  predicate IsSlash(c: char) {
    c == '/'
  }

  lemma OneDigitValue(t: string)
    requires |t| == 1 && AllDigits(t)
    ensures Value(t) == DigitValue(t[0])
  {
    assert t[..0] == [];
  }

  lemma TwoDigitValue(t: string)
    requires |t| == 2 && AllDigits(t)
    ensures Value(t) == 10 * DigitValue(t[0]) + DigitValue(t[1])
  {
    OneDigitValue(t[..1]);
  }

  lemma FourDigitValue(t: string)
    requires |t| == 4 && AllDigits(t)
    ensures Value(t) == 100 * Value(t[..2]) + Value(t[2..]) < 10000
  {
    TwoDigitValue(t[..2]);
    TwoDigitValue(t[2..]);
    assert t[..3][..2] == t[..2];
    assert Value(t[..3]) == 10 * Value(t[..2]) + DigitValue(t[2]);
  }

  /** The month alternatives are exactly the one- or two-digit strings whose value is 1..12. */
  lemma MonthTokenExactly(t: string)
    ensures MonthToken(t) <==> 1 <= |t| <= 2 && AllDigits(t) && 1 <= Value(t) <= 12
  {
    if |t| == 2 && AllDigits(t) { TwoDigitValue(t); }
    if |t| == 1 && AllDigits(t) { OneDigitValue(t); }
  }

  /** The day alternatives are exactly the one- or two-digit strings whose value is 1..31. */
  lemma DayTokenExactly(t: string)
    ensures DayToken(t) <==> 1 <= |t| <= 2 && AllDigits(t) && 1 <= Value(t) <= 31
  {
    if |t| == 2 && AllDigits(t) { TwoDigitValue(t); }
    if |t| == 1 && AllDigits(t) { OneDigitValue(t); }
  }

  /** The date three tokens spell, when each is one the pattern allows. */
  function ReadTokens(m: string, d: string, y: string): (r: Option<Date>)
    ensures r.Some? <==> MonthToken(m) && DayToken(d) && YearTail(y)
  {
    if MonthToken(m) && DayToken(d) && YearTail(y) then
      MonthTokenExactly(m);
      DayTokenExactly(d);
      FourDigitValue(y[..4]);
      Some(Mdy(Value(m), Value(d), Value(y[..4])))
    else None
  }

  /** The reading of an accepted string: the month, day and year its tokens spell, with or
      without leading zeros; None for a string the pattern rejects. */
  function ParseDate(s: string): (r: Option<Date>)
  {
    var i := FirstIndex(s, IsSlash);
    if i == |s| then None
    else
      var rest := s[i + 1..];
      var j := FirstIndex(rest, IsSlash);
      if j == |rest| then None
      else ReadTokens(s[..i], rest[..j], rest[j + 1..])
  }

  /** The validator: the condition the three date prompts loop on. */
  predicate IsValidDate(s: string) {
    ParseDate(s).Some?
  }

  predicate NoSlash(t: string) {
    forall k :: 0 <= k < |t| ==> !IsSlash(t[k])
  }

  /** Reading `m/d/y` where `m` and `d` hold no slash: the pattern's verdict on each token decides. */
  lemma ParseOfParts(m: string, d: string, y: string)
    requires NoSlash(m) && NoSlash(d)
    ensures ParseDate(m + "/" + d + "/" + y) == ReadTokens(m, d, y)
  {
    var s := m + "/" + d + "/" + y;
    assert forall k :: 0 <= k < |m| ==> s[k] == m[k];
    FirstIndexIs(s, IsSlash, |m|);
    var rest := s[|m| + 1..];
    assert rest == d + "/" + y;
    assert forall k :: 0 <= k < |d| ==> rest[k] == d[k];
    FirstIndexIs(rest, IsSlash, |d|);
    assert s[..|m|] == m && rest[..|d|] == d && rest[|d| + 1..] == y;
  }

  lemma SplitAtSlashes(s: string, a: nat, b: nat)
    requires a < b < |s| && s[a] == '/' && s[b] == '/'
    ensures s == s[..a] + "/" + s[a + 1..b] + "/" + s[b + 1..]
  {
    assert s == s[..a] + [s[a]] + s[a + 1..b] + [s[b]] + s[b + 1..];
  }

  lemma TokenHasNoSlash(t: string)
    requires MonthToken(t) || DayToken(t)
    ensures NoSlash(t)
  {
  }

  /** The parser accepts exactly the strings the regular expression matches. */
  lemma ParseDateIffPattern(s: string)
    ensures IsValidDate(s) <==> MatchesDatePattern(s)
  {
    if IsValidDate(s) {
      ParseDateValues(s, ParseDate(s).value);
    }
    if MatchesDatePattern(s) {
      var a, b :| 0 <= a < b < |s| && s[a] == '/' && s[b] == '/'
        && MonthToken(s[..a]) && DayToken(s[a + 1..b]) && YearTail(s[b + 1..]);
      SplitAtSlashes(s, a, b);
      TokenHasNoSlash(s[..a]);
      TokenHasNoSlash(s[a + 1..b]);
      ParseOfParts(s[..a], s[a + 1..b], s[b + 1..]);
    }
  }

  /** The date the store reads from an accepted string is the triple its tokens spell. */
  lemma ParseDateValues(s: string, d: Date)
    requires ParseDate(s) == Some(d)
    ensures exists i, j ::
              && 0 <= i < j < |s| && s[i] == '/' && s[j] == '/'
              && MonthToken(s[..i]) && DayToken(s[i + 1..j]) && YearTail(s[j + 1..])
              && d == Mdy(Value(s[..i]), Value(s[i + 1..j]), Value(s[j + 1..][..4]))
  {
    var i := FirstIndex(s, IsSlash);
    var rest := s[i + 1..];
    var j := FirstIndex(rest, IsSlash);
    var b := i + 1 + j;
    assert rest[j + 1..] == s[b + 1..];
    assert rest[..j] == s[i + 1..b];
    assert s[b] == '/';
  }

  function DigitChar(n: nat): (c: char)
    requires n < 10
    ensures IsDigit(c) && DigitValue(c) == n
  {
    ('0' as int + n) as char
  }

  function Pad2(n: nat): (t: string)
    requires n < 100
    ensures |t| == 2 && AllDigits(t) && NoSlash(t)
    ensures Value(t) == n
  {
    var t := [DigitChar(n / 10), DigitChar(n % 10)];
    TwoDigitValue(t);
    t
  }

  function Pad4(n: nat): (t: string)
    requires n < 10000
    ensures |t| == 4 && AllDigits(t)
    ensures Value(t) == n
  {
    var t := Pad2(n / 100) + Pad2(n % 100);
    FourDigitValue(t);
    assert t[..2] == Pad2(n / 100) && t[2..] == Pad2(n % 100);
    t
  }

  lemma Pad2Examples()
    ensures Pad2(1) == "01" && Pad2(2) == "02" && Pad2(5) == "05"
    ensures Pad2(12) == "12" && Pad2(20) == "20" && Pad2(24) == "24" && Pad2(31) == "31"
  {
  }

  lemma Pad4Of2024()
    ensures Pad4(2024) == "2024"
  {
    Pad2Examples();
  }

  /** A date written as `MM/DD/YYYY` with leading zeros. */
  function FormatDate(d: Date): string {
    Pad2(d.month) + "/" + Pad2(d.day) + "/" + Pad4(d.year)
  }

  /** Every `Date` (month 1..12, day 1..31, year 0..9999) is the reading of some accepted
      string: writing it out and reading it back gives the same date. */
  lemma FormatThenParse(d: Date)
    ensures ParseDate(FormatDate(d)) == Some(d)
  {
    var m, dd, y := Pad2(d.month), Pad2(d.day), Pad4(d.year);
    MonthTokenExactly(m);
    DayTokenExactly(dd);
    assert y[..4] == y && y[4..] == [];
    ParseOfParts(m, dd, y);
  }

  lemma Value2024()
    ensures AllDigits("2024") && Value("2024") == 2024
  {
    FourDigitValue("2024");
    assert "2024"[..2] == "20" && "2024"[2..] == "24";
    TwoDigitValue("20");
    TwoDigitValue("24");
  }

  lemma ReadsUnpadded()
    ensures ReadTokens("1", "5", "2024") == Some(Mdy(1, 5, 2024))
  {
    OneDigitValue("1");
    OneDigitValue("5");
    Value2024();
    assert "2024"[..4] == "2024" && "2024"[4..] == [];
  }

  lemma ParsesUnpadded()
    ensures ParseDate("1/5/2024") == Some(Mdy(1, 5, 2024))
  {
    assert "1/5/2024" == "1" + "/" + "5" + "/" + "2024";
    ParseOfParts("1", "5", "2024");
    ReadsUnpadded();
  }

  lemma ParsesPadded()
    ensures ParseDate("01/05/2024") == Some(Mdy(1, 5, 2024))
  {
    FormatThenParse(Mdy(1, 5, 2024));
    Pad4Of2024();
    Pad2Examples();
    assert FormatDate(Mdy(1, 5, 2024)) == "01/05/2024";
  }

  /** `1/5/2024` and `01/05/2024` are read as the same date. */
  lemma LeadingZerosIgnored()
    ensures ParseDate("1/5/2024") == ParseDate("01/05/2024") == Some(Mdy(1, 5, 2024))
  {
    ParsesUnpadded();
    ParsesPadded();
  }

  lemma ParsesLastDayOfYear()
    ensures ParseDate("12/31/2024") == Some(Mdy(12, 31, 2024))
  {
    FormatThenParse(Mdy(12, 31, 2024));
    Pad4Of2024();
    Pad2Examples();
    assert FormatDate(Mdy(12, 31, 2024)) == "12/31/2024";
  }

  lemma ParsesFebruary31()
    ensures ParseDate("02/31/2024") == Some(Mdy(2, 31, 2024))
  {
    FormatThenParse(Mdy(2, 31, 2024));
    Pad4Of2024();
    Pad2Examples();
    assert FormatDate(Mdy(2, 31, 2024)) == "02/31/2024";
  }

  lemma ParsesWithFinalTerminator()
    ensures IsValidDate("12/31/2024\U{2028}")
  {
    var y := "2024\U{2028}";
    assert "12/31/2024\U{2028}" == "12" + "/" + "31" + "/" + y;
    assert y[..4] == "2024" && y[4..] == ['\U{2028}'];
    Value2024();
    assert MonthToken("12") && DayToken("31") && YearTail(y);
    ParseOfParts("12", "31", y);
  }

  /** The pattern checks ranges only, not whether the day exists in the month; `$` also
      lets one final line terminator through. */
  lemma AcceptedExamples()
    ensures IsValidDate("1/5/2024")
    ensures IsValidDate("12/31/2024")
    ensures IsValidDate("02/31/2024")
    ensures IsValidDate("12/31/2024\U{2028}")
  {
    ParsesUnpadded();
    ParsesLastDayOfYear();
    ParsesFebruary31();
    ParsesWithFinalTerminator();
  }

  lemma RejectsMonth13()
    ensures !IsValidDate("13/01/2024")
  {
    assert "13/01/2024" == "13" + "/" + "01" + "/" + "2024";
    ParseOfParts("13", "01", "2024");
  }

  lemma RejectsMonth0()
    ensures !IsValidDate("0/10/2024")
  {
    assert "0/10/2024" == "0" + "/" + "10" + "/" + "2024";
    ParseOfParts("0", "10", "2024");
  }

  lemma RejectsDay32()
    ensures !IsValidDate("01/32/2024")
  {
    assert "01/32/2024" == "01" + "/" + "32" + "/" + "2024";
    ParseOfParts("01", "32", "2024");
  }

  lemma RejectsTwoDigitYear()
    ensures !IsValidDate("1/1/24")
  {
    assert "1/1/24" == "1" + "/" + "1" + "/" + "24";
    ParseOfParts("1", "1", "24");
  }

  /** Out-of-range months and days, and two-digit years, are rejected. */
  lemma RejectedExamples()
    ensures !IsValidDate("13/01/2024")
    ensures !IsValidDate("0/10/2024")
    ensures !IsValidDate("01/32/2024")
    ensures !IsValidDate("1/1/24")
  {
    RejectsMonth13();
    RejectsMonth0();
    RejectsDay32();
    RejectsTwoDigitYear();
  }

  /** The store's date order: by year, then month, then day. */
  predicate OnOrBefore(a: Date, b: Date) {
    || a.year < b.year
    || (a.year == b.year && a.month < b.month)
    || (a.year == b.year && a.month == b.month && a.day <= b.day)
  }

  /** An integer key for sorting by date. */
  function DateKey(d: Date): int {
    d.year * 10000 + d.month * 100 + d.day
  }

  /** Comparing keys is comparing dates. */
  lemma DateKeyOrder(a: Date, b: Date)
    ensures OnOrBefore(a, b) <==> DateKey(a) <= DateKey(b)
  {
  }
}
