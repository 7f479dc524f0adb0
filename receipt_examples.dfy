/**
 * Worked receipts, stepping the backtracking search by hand. The text is a
 * parameter fixed by `requires` so that the verifier follows the steps given
 * here instead of unfolding the whole search tree of a literal.
 */
module ReceiptExamples {
  import opened Wrappers
  import opened Strings
  import opened Regex
  import opened ReceiptParser

  const DayOnward: Pattern := [MonthOrDay, Sep, YearDigits]
  const SepOnward: Pattern := [Sep, MonthOrDay, Sep, YearDigits]

  lemma NumericDateTails()
    ensures NumericDate[1..] == SepOnward && SepOnward[1..] == DayOnward
    ensures DayOnward[1..] == [Sep, YearDigits] && [Sep, YearDigits][1..] == [YearDigits]
    ensures [YearDigits][1..] == []
  {
  }

  // ------------------------------------------------------------- "3/4/24"

  lemma ShortYearTail(s: string)
    requires s == "3/4/24"
    ensures MatchAt([Sep, YearDigits], s, 3) == Some(6)
  {
    NumericDateTails();
    assert Run(Digit, Finite(2), s, 6) == 0;
    assert Run(Digit, Finite(3), s, 5) == 1;
    assert Run(Digit, Finite(4), s, 4) == 2;
    assert Backtrack([YearDigits], s, 4, 2) == Some(6);
    assert MatchAt([YearDigits], s, 4) == Some(6);
    assert Run(DateSep, Finite(0), s, 4) == 0;
    assert Run(DateSep, Finite(1), s, 3) == 1;
    assert Backtrack([Sep, YearDigits], s, 3, 1) == Some(6);
  }

  lemma ShortYearWhole(s: string)
    requires s == "3/4/24"
    ensures MatchAt(NumericDate, s, 0) == Some(6)
  {
    NumericDateTails();
    ShortYearTail(s);
    assert Run(Digit, Finite(1), s, 3) == 0;
    assert Run(Digit, Finite(2), s, 2) == 1;
    assert MatchAt(DayOnward, s, 2) == Some(6);
    assert Run(DateSep, Finite(0), s, 2) == 0;
    assert Run(DateSep, Finite(1), s, 1) == 1;
    assert MatchAt(SepOnward, s, 1) == Some(6);
    assert Run(Digit, Finite(1), s, 1) == 0;
    assert Run(Digit, Finite(2), s, 0) == 1;
  }

  /** `"3/4/24"` is read as March 4th of 2024. */
  lemma ShortYearDate(line: string)
    requires line == "3/4/24"
    ensures DateOf([line]) == "2024-03-04"
  {
    ShortYearWhole(line);
    assert Search(NumericDate, line, 0) == Some((0, 6));
    assert FirstMatch(NumericDate, line) == Some(line[0..6]);
    assert line[0..6] == "3" + ['/'] + "4" + ['/'] + "24";
    ReformatReadsMonthDayYear("3", '/', "4", '/', "24");
    assert Strings.PadStart("3", 2, '0') == "03";
    assert Strings.PadStart("4", 2, '0') == "04";
  }

  // ------------------------------------------------------------ "3/4/2024"

  lemma LongYearTail(s: string)
    requires s == "3/4/2024"
    ensures MatchAt([Sep, YearDigits], s, 3) == Some(8)
  {
    NumericDateTails();
    assert Run(Digit, Finite(0), s, 8) == 0;
    assert Run(Digit, Finite(1), s, 7) == 1;
    assert Run(Digit, Finite(2), s, 6) == 2;
    assert Run(Digit, Finite(3), s, 5) == 3;
    assert Run(Digit, Finite(4), s, 4) == 4;
    assert Backtrack([YearDigits], s, 4, 4) == Some(8);
    assert MatchAt([YearDigits], s, 4) == Some(8);
    assert Run(DateSep, Finite(0), s, 4) == 0;
    assert Run(DateSep, Finite(1), s, 3) == 1;
    assert Backtrack([Sep, YearDigits], s, 3, 1) == Some(8);
  }

  lemma LongYearWhole(s: string)
    requires s == "3/4/2024"
    ensures MatchAt(NumericDate, s, 0) == Some(8)
  {
    NumericDateTails();
    LongYearTail(s);
    assert Run(Digit, Finite(1), s, 3) == 0;
    assert Run(Digit, Finite(2), s, 2) == 1;
    assert MatchAt(DayOnward, s, 2) == Some(8);
    assert Run(DateSep, Finite(0), s, 2) == 0;
    assert Run(DateSep, Finite(1), s, 1) == 1;
    assert MatchAt(SepOnward, s, 1) == Some(8);
    assert Run(Digit, Finite(1), s, 1) == 0;
    assert Run(Digit, Finite(2), s, 0) == 1;
  }

  /**
   * `"3/4/2024"` is read as March 4th of 2024: the year quantifier takes all
   * four digits, although its first two would already make a word.
   */
  lemma LongYearDate(line: string)
    requires line == "3/4/2024"
    ensures DateOf([line]) == "2024-03-04"
  {
    LongYearWhole(line);
    assert Search(NumericDate, line, 0) == Some((0, 8));
    assert FirstMatch(NumericDate, line) == Some(line[0..8]);
    assert line[0..8] == "3" + ['/'] + "4" + ['/'] + "2024";
    ReformatReadsMonthDayYear("3", '/', "4", '/', "2024");
    assert Strings.PadStart("3", 2, '0') == "03";
    assert Strings.PadStart("4", 2, '0') == "04";
  }

  /** A three-digit year is kept as it is, so "1/2/123" becomes the nine-character "123-01-02". */
  lemma ThreeDigitYearReformat(t: string)
    requires t == "1/2/123"
    ensures Reformat(t) == "123-01-02"
  {
    assert t == "1" + ['/'] + "2" + ['/'] + "123";
    ReformatReadsMonthDayYear("1", '/', "2", '/', "123");
    assert Year("123") == "123" && Strings.PadStart("1", 2, '0') == "01" && Strings.PadStart("2", 2, '0') == "02";
  }

  // --------------------------------------------------------- "2024/03/04"

  lemma NoSepAt(s: string, j: nat)
    requires s == "2024/03/04" && 1 <= j <= 3
    ensures MatchAt(SepOnward, s, j) == None
  {
    NumericDateTails();
    assert Run(DateSep, Finite(1), s, j) == 0;
  }

  lemma YearFirstTail(s: string)
    requires s == "2024/03/04"
    ensures MatchAt(DayOnward, s, 5) == Some(10)
  {
    NumericDateTails();
    assert Run(Digit, Finite(2), s, 10) == 0;
    assert Run(Digit, Finite(3), s, 9) == 1;
    assert Run(Digit, Finite(4), s, 8) == 2;
    assert Backtrack([YearDigits], s, 8, 2) == Some(10);
    assert MatchAt([YearDigits], s, 8) == Some(10);
    assert Run(DateSep, Finite(0), s, 8) == 0;
    assert Run(DateSep, Finite(1), s, 7) == 1;
    assert MatchAt([Sep, YearDigits], s, 7) == Some(10);
    assert Run(Digit, Finite(0), s, 7) == 0;
    assert Run(Digit, Finite(1), s, 6) == 1;
    assert Run(Digit, Finite(2), s, 5) == 2;
    assert Backtrack(DayOnward, s, 5, 2) == Some(10);
  }

  lemma YearFirstFrom2(s: string)
    requires s == "2024/03/04"
    ensures MatchAt(NumericDate, s, 2) == Some(10)
  {
    NumericDateTails();
    YearFirstTail(s);
    assert Run(DateSep, Finite(0), s, 5) == 0;
    assert Run(DateSep, Finite(1), s, 4) == 1;
    assert MatchAt(SepOnward, s, 4) == Some(10);
    assert Run(Digit, Finite(0), s, 4) == 0;
    assert Run(Digit, Finite(1), s, 3) == 1;
    assert Run(Digit, Finite(2), s, 2) == 2;
  }

  lemma YearFirstMisses(s: string)
    requires s == "2024/03/04"
    ensures MatchAt(NumericDate, s, 0) == None && MatchAt(NumericDate, s, 1) == None
  {
    NumericDateTails();
    NoSepAt(s, 1);
    NoSepAt(s, 2);
    NoSepAt(s, 3);
    assert Run(Digit, Finite(0), s, 2) == 0;
    assert Run(Digit, Finite(1), s, 1) == 1;
    assert Run(Digit, Finite(2), s, 0) == 2;
    assert Backtrack(NumericDate, s, 0, 0) == None;
    assert Backtrack(NumericDate, s, 0, 1) == None;
    assert Backtrack(NumericDate, s, 0, 2) == None;
    assert Run(Digit, Finite(0), s, 3) == 0;
    assert Run(Digit, Finite(1), s, 2) == 1;
    assert Run(Digit, Finite(2), s, 1) == 2;
    assert Backtrack(NumericDate, s, 1, 0) == None;
    assert Backtrack(NumericDate, s, 1, 1) == None;
    assert Backtrack(NumericDate, s, 1, 2) == None;
  }

  /**
   * A year-first date is not recognised as such: the leftmost match starts
   * inside the year, at `"24/03/04"`.
   */
  lemma YearFirstMatch(line: string)
    requires line == "2024/03/04"
    ensures Search(NumericDate, line, 0) == Some((2, 10))
    ensures FirstMatch(NumericDate, line) == Some("24/03/04")
  {
    YearFirstMisses(line);
    YearFirstFrom2(line);
    assert Search(NumericDate, line, 2) == Some((2, 10));
    assert Search(NumericDate, line, 1) == Some((2, 10));
    assert line[2..10] == "24/03/04";
  }

  lemma YearFirstReformat(line: string)
    requires line == "2024/03/04"
    ensures Reformat(line[2..10]) == "2004-24-03"
  {
    var m, d, y := line[2..4], line[5..7], line[8..10];
    assert line[2..10] == m + [line[4]] + d + [line[7]] + y;
    ReformatReadsMonthDayYear(m, line[4], d, line[7], y);
    assert Year(y) == "2004" && Strings.PadStart(m, 2, '0') == "24" && Strings.PadStart(d, 2, '0') == "03";
  }

  /** ... and that match is read as month 24, day 03 of 2004. */
  lemma YearFirstDate(line: string)
    requires line == "2024/03/04"
    ensures DateOf([line]) == "2004-24-03"
  {
    YearFirstMatch(line);
    assert FirstHit(NumericDate, [line]) == Some(0);
    YearFirstReformat(line);
  }
}
