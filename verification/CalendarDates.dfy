/**
  A date cell as the JavaScript engine takes it: ten characters, YYYY-MM-DD, any day from 1 to 31 in
  any month. A day past its month's end rolls over into the next month, so the date reads back as another.
 */
module CalendarDates {
  predicate IsDigit(c: char) {
    '0' <= c <= '9'
  }

  function Value(c: char): int {
    c as int - '0' as int
  }

  function Digit(n: int): char
    requires 0 <= n <= 9
  {
    ('0' as int + n) as char
  }

  predicate Shaped(text: string) {
    && |text| == 10 && text[4] == '-' && text[7] == '-'
    && IsDigit(text[0]) && IsDigit(text[1]) && IsDigit(text[2]) && IsDigit(text[3])
    && IsDigit(text[5]) && IsDigit(text[6]) && IsDigit(text[8]) && IsDigit(text[9])
  }

  function Pair(tens: char, ones: char): int {
    10 * Value(tens) + Value(ones)
  }

  function Year(text: string): int
    requires Shaped(text)
  {
    100 * Pair(text[0], text[1]) + Pair(text[2], text[3])
  }

  function Month(text: string): int
    requires Shaped(text)
  {
    Pair(text[5], text[6])
  }

  function Day(text: string): int
    requires Shaped(text)
  {
    Pair(text[8], text[9])
  }

  /** What an import takes for a date. */
  predicate IsDate(text: string) {
    Shaped(text) && 1 <= Month(text) <= 12 && 1 <= Day(text) <= 31
  }

  predicate Leap(year: int) {
    year % 4 == 0 && (year % 100 != 0 || year % 400 == 0)
  }

  function DaysIn(year: int, month: int): int {
    if month == 2 then (if Leap(year) then 29 else 28) else if month in {4, 6, 9, 11} then 30 else 31
  }

  /** The day is one its month has. */
  predicate DayExists(text: string) {
    IsDate(text) && Day(text) <= DaysIn(Year(text), Month(text))
  }

  function Two(n: int): string
    requires 0 <= n <= 99
  {
    [Digit(n / 10), Digit(n % 10)]
  }

  function Written(year: int, month: int, day: int): string
    requires 0 <= year <= 9999 && 0 <= month <= 99 && 0 <= day <= 99
  {
    Two(year / 100) + Two(year % 100) + "-" + Two(month) + "-" + Two(day)
  }

  lemma YearInRange(text: string)
    requires Shaped(text)
    ensures 0 <= Year(text) <= 9999
  {
  }

  /** The date a stored instant reads back as. */
  function ReadsBackAs(text: string): string {
    if !IsDate(text) then text
    else
      YearInRange(text);
      var y, m, d := Year(text), Month(text), Day(text);
      if d <= DaysIn(y, m) then Written(y, m, d) else Written(y, m + 1, d - DaysIn(y, m))
  }

  lemma TwoReads(n: int)
    requires 0 <= n <= 99
    ensures IsDigit(Two(n)[0]) && IsDigit(Two(n)[1]) && Pair(Two(n)[0], Two(n)[1]) == n
  {
  }

  lemma PairWrites(tens: char, ones: char)
    requires IsDigit(tens) && IsDigit(ones)
    ensures 0 <= Pair(tens, ones) <= 99 && Two(Pair(tens, ones)) == [tens, ones]
  {
  }

  /** Writing a date and reading it are inverse. */
  lemma WrittenReads(year: int, month: int, day: int)
    requires 0 <= year <= 9999 && 0 <= month <= 99 && 0 <= day <= 99
    ensures var text := Written(year, month, day);
            Shaped(text) && Year(text) == year && Month(text) == month && Day(text) == day
  {
    hide Two, Pair, IsDigit;
    TwoReads(year / 100);
    TwoReads(year % 100);
    TwoReads(month);
    TwoReads(day);
    TwoLong(year / 100);
    TwoLong(year % 100);
    TwoLong(month);
    TwoLong(day);
  }

  lemma TwoLong(n: int)
    requires 0 <= n <= 99
    ensures |Two(n)| == 2
  {
  }

  lemma ReadWrites(text: string)
    requires Shaped(text)
    ensures 0 <= Year(text) <= 9999 && 0 <= Month(text) <= 99 && 0 <= Day(text) <= 99
    ensures Written(Year(text), Month(text), Day(text)) == text
  {
    hide Two, Pair;
    PairWrites(text[0], text[1]);
    PairWrites(text[2], text[3]);
    PairWrites(text[5], text[6]);
    PairWrites(text[8], text[9]);
    assert Year(text) / 100 == Pair(text[0], text[1]) && Year(text) % 100 == Pair(text[2], text[3]);
    assert text == [text[0], text[1]] + [text[2], text[3]] + "-" + [text[5], text[6]] + "-" + [text[8], text[9]];
  }

  /** A date reads back as it was written exactly when its month has its day. */
  lemma ReadsBackExactly(text: string)
    requires IsDate(text)
    ensures ReadsBackAs(text) == text <==> DayExists(text)
  {
    hide Written;
    var y, m, d := Year(text), Month(text), Day(text);
    YearInRange(text);
    ReadWrites(text);
    if d > DaysIn(y, m) {
      WrittenReads(y, m + 1, d - DaysIn(y, m));
    }
  }

  /** Taken for dates are the written days 1 to 31 of the months 1 to 12, whatever the month has. */
  lemma TakenExactly(year: int, month: int, day: int)
    requires 0 <= year <= 9999 && 0 <= month <= 99 && 0 <= day <= 99
    ensures IsDate(Written(year, month, day)) <==> 1 <= month <= 12 && 1 <= day <= 31
  {
    hide Written;
    WrittenReads(year, month, day);
  }

  /** The days of the Gregorian calendar, numbered in closed form with the year begun in March. */
  function DayNumber(year: int, month: int, day: int): int {
    var y, m := if month <= 2 then year - 1 else year, (month + 9) % 12;
    DaysBefore(y) + (153 * m + 2) / 5 + day
  }

  function DaysBefore(y: int): int {
    365 * y + y / 4 - y / 100 + y / 400
  }

  /** The table of month lengths and the rule of leap years are the closed form's. */
  lemma MonthsHaveTheirDays(year: int, month: int)
    requires 1 <= month <= 12
    ensures DaysIn(year, month)
         == DayNumber(if month == 12 then year + 1 else year, month % 12 + 1, 1) - DayNumber(year, month, 1)
  {
    hide DaysBefore, Leap;
    YearsGrow(year);
  }

  lemma YearsGrow(year: int)
    ensures DaysBefore(year) - DaysBefore(year - 1) == if Leap(year) then 366 else 365
  {
    Multiples(year, 4);
    Multiples(year, 100);
    Multiples(year, 400);
    Nested(year);
  }

  lemma Nested(year: int)
    ensures year % 400 == 0 ==> year % 100 == 0
    ensures year % 100 == 0 ==> year % 4 == 0
  {
  }

  /** One more multiple of `n` is reached exactly at a multiple of `n`. */
  lemma Multiples(year: int, n: int)
    requires n in {4, 100, 400}
    ensures year / n == (year - 1) / n + if year % n == 0 then 1 else 0
  {
  }

  /** What a date reads back as is the same day, and one its month has. */
  lemma ReadsBackAsSameDay(text: string)
    requires IsDate(text)
    ensures var back := ReadsBackAs(text);
            && DayExists(back) && Year(back) == Year(text)
            && DayNumber(Year(back), Month(back), Day(back)) == DayNumber(Year(text), Month(text), Day(text))
  {
    hide Written, DayNumber;
    var y, m, d := Year(text), Month(text), Day(text);
    YearInRange(text);
    if d > DaysIn(y, m) {
      WrittenReads(y, m + 1, d - DaysIn(y, m));
      MonthsHaveTheirDays(y, m);
      DaysAddUp(y, m, d);
      DaysAddUp(y, m + 1, d - DaysIn(y, m));
    } else {
      WrittenReads(y, m, d);
    }
  }

  lemma DaysAddUp(year: int, month: int, day: int)
    ensures DayNumber(year, month, day) == DayNumber(year, month, 1) + day - 1
  {
  }

  lemma ThirtiethOfFebruary()
    ensures IsDate("2025-02-30") && !DayExists("2025-02-30") && ReadsBackAs("2025-02-30") == "2025-03-02"
  {
  }
}
