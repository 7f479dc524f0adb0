/**
 * `parseReceiptText` of the receipt scanner: raw OCR text becomes a draft
 * expense `{amount, merchant, date, category, notes}`.
 *
 *   - the text is split on line feeds, each piece trimmed, empty pieces dropped;
 *   - the amount is the leftmost match of `\$?\d+\.\d{2}` in the first line
 *     that has one, without its `$`;
 *   - the merchant is the first line;
 *   - the date is the leftmost match of `\d{1,2}[\/\-]\d{1,2}[\/\-]\d{2,4}` in
 *     the first line that has one, read as month/day/year and written
 *     year-month-day, with month and day padded to two digits and "20" put
 *     before a two-digit year;
 *   - without a date the fallback `new date()` calls the empty local string
 *     `date` as a constructor, which throws: no draft is produced.
 */
module ReceiptParser {
  import opened Wrappers
  import opened Strings
  import opened Regex

  // ---------------------------------------------------------------- patterns

  const Dollar := Atom(Char('$'), 0, Finite(1))    // \$?
  const Units := Atom(Digit, 1, Unbounded)          // \d+
  const Point := Atom(Char('.'), 1, Finite(1))      // \.
  const Cents := Atom(Digit, 2, Finite(2))          // \d{2}

  /** `/\$?\d+\.\d{2}/` */
  const Money: Pattern := [Dollar, Units, Point, Cents]

  const MonthOrDay := Atom(Digit, 1, Finite(2))     // \d{1,2}
  const Sep := Atom(DateSep, 1, Finite(1))          // [\/\-]
  const YearDigits := Atom(Digit, 2, Finite(4))     // \d{2,4}

  /** `/\d{1,2}[\/\-]\d{1,2}[\/\-]\d{2,4}/` */
  const NumericDate: Pattern := [MonthOrDay, Sep, MonthOrDay, Sep, YearDigits]

  /**
   * Both patterns are separated: in each, an atom shares no character with
   * the one before it, so a match is also the longest word at its start.
   */
  lemma PatternsSeparated()
    ensures Separated(Money) && Separated(NumericDate)
  {
  }

  /** The characters of `/[\/\-]/`, on which a matched date is split. */
  const DateSeps: set<char> := {'/', '-'}

  // --------------------------------------------------------------- the draft

  datatype Draft = Draft(amount: string, merchant: string, date: string, category: string, notes: string)

  /** Why no draft comes out of a scan. */
  datatype ScanError =
    | DateIsNotAConstructor  // `new date()` on the empty local string `date`
    | OcrFailed              // the OCR call rejected

  /** `\d+\.\d{2}`: one or more digits, a point, exactly two digits. */
  predicate IsAmountText(a: string) {
    |a| >= 4 && AllDigits(a[..|a| - 3]) && a[|a| - 3] == '.' && IsDigit(a[|a| - 2]) && IsDigit(a[|a| - 1])
  }

  /**
   * The shape of the converted date: a year of three or four digits, a dash,
   * two digits, a dash, two digits (`YYYY-MM-DD` when the year has four).
   */
  predicate IsDateText(r: string) {
    var n := |r|;
    && (n == 9 || n == 10)
    && AllDigits(r[..n - 6]) && r[n - 6] == '-'
    && AllDigits(r[n - 5..n - 3]) && r[n - 3] == '-'
    && AllDigits(r[n - 2..])
  }

  // -------------------------------------------------------------- normaliser

  /** A normalised line: not empty, and neither starting nor ending with whitespace. */
  predicate IsLine(line: string) {
    line != [] && !IsWhitespace(line[0]) && !IsWhitespace(line[|line| - 1])
  }

  /** Trims every piece and keeps the non-empty results, in order. */
  function Clean(pieces: seq<string>): (lines: seq<string>)
    ensures forall k :: 0 <= k < |lines| ==> IsLine(lines[k])
  {
    if pieces == [] then []
    else
      var t := Trim(pieces[0]);
      var rest := Clean(pieces[1..]);
      if t == [] then rest
      else
        assert IsLine(t);
        [t] + rest
  }

  /**
   * `text.split('\n').map(line => line.trim()).filter(line => line)`: every
   * line is non-empty, already trimmed, and holds no line feed.
   */
  function Normalise(text: string): (lines: seq<string>)
    ensures forall k :: 0 <= k < |lines| ==> IsLine(lines[k]) && '\n' !in lines[k]
  {
    var pieces := SplitOn(text, {'\n'});
    CleanKeepsOut(pieces, '\n');
    Clean(pieces)
  }

  /** Trimming and dropping pieces brings in no character the pieces lack. */
  lemma {:induction false} CleanKeepsOut(pieces: seq<string>, c: char)
    requires forall i :: 0 <= i < |pieces| ==> c !in pieces[i]
    ensures forall k :: 0 <= k < |Clean(pieces)| ==> c !in Clean(pieces)[k]
  {
    if pieces != [] {
      TrimKeepsOut(pieces[0], c);
      CleanKeepsOut(pieces[1..], c);
    }
  }

  /**
   * For a text made of line-feed-free lines, the normalised lines are those
   * lines trimmed, with the empty ones dropped, in their order.
   */
  lemma NormaliseJoined(pieces: seq<string>)
    requires |pieces| >= 1
    requires forall k :: 0 <= k < |pieces| ==> '\n' !in pieces[k]
    ensures Normalise(JoinWith(pieces, '\n')) == Clean(pieces)
  {
    SplitJoin(pieces, '\n');
  }

  lemma {:induction false} CleanAppend(a: seq<string>, b: seq<string>)
    ensures Clean(a + b) == Clean(a) + Clean(b)
  {
    if a == [] {
      assert a + b == b;
    } else {
      assert (a + b)[1..] == a[1..] + b;
      assert (a + b)[0] == a[0];
      CleanAppend(a[1..], b);
    }
  }

  /**
   * Normalising is line by line: the lines of two texts joined by a line feed
   * are the lines of the first followed by the lines of the second.
   */
  lemma NormaliseConcat(a: string, b: string)
    ensures Normalise(a + "\n" + b) == Normalise(a) + Normalise(b)
  {
    SplitAround(a, '\n', b, {'\n'});
    CleanAppend(SplitOn(a, {'\n'}), SplitOn(b, {'\n'}));
  }

  lemma {:induction false} CleanEmpty(pieces: seq<string>)
    ensures Clean(pieces) == [] <==> forall k :: 0 <= k < |pieces| ==> AllWhitespace(pieces[k])
  {
    if pieces != [] {
      CleanEmpty(pieces[1..]);
      assert forall k :: 1 <= k < |pieces| ==> pieces[k] == pieces[1..][k - 1];
    }
  }

  lemma {:induction false} JoinAllWhitespace(parts: seq<string>)
    requires |parts| >= 1
    ensures AllWhitespace(JoinWith(parts, '\n')) <==> forall k :: 0 <= k < |parts| ==> AllWhitespace(parts[k])
  {
    if |parts| > 1 {
      JoinAllWhitespace(parts[1..]);
      var rest := JoinWith(parts[1..], '\n');
      var whole := parts[0] + ['\n'] + rest;
      assert whole[..|parts[0]|] == parts[0];
      assert whole[|parts[0]| + 1..] == rest;
      assert forall k :: 1 <= k < |parts| ==> parts[k] == parts[1..][k - 1];
      if forall k :: 0 <= k < |parts| ==> AllWhitespace(parts[k]) {
        forall i | 0 <= i < |whole| ensures IsWhitespace(whole[i]) {
          if i > |parts[0]| {
            assert whole[i] == rest[i - |parts[0]| - 1];
          }
        }
      }
    }
  }

  /** There are no lines exactly when the text is nothing but whitespace. */
  lemma NoLinesIffBlank(text: string)
    ensures Normalise(text) == [] <==> AllWhitespace(text)
  {
    var pieces := SplitOn(text, {'\n'});
    CleanEmpty(pieces);
    JoinSplit(text, '\n');
    JoinAllWhitespace(pieces);
  }

  // ----------------------------------------------------------- line search

  /** The index of the first line in which `p` matches. */
  function FirstHit(p: Pattern, lines: seq<string>): (r: Option<nat>)
    ensures r.Some? ==> r.value < |lines| && FirstMatch(p, lines[r.value]).Some?
    ensures r.Some? ==> forall j :: 0 <= j < r.value ==> FirstMatch(p, lines[j]).None?
    ensures r.None? ==> forall j :: 0 <= j < |lines| ==> FirstMatch(p, lines[j]).None?
  {
    if lines == [] then None
    else if FirstMatch(p, lines[0]).Some? then Some(0)
    else
      match FirstHit(p, lines[1..])
      case Some(i) => Some(i + 1)
      case None => None
  }

  /** Looking one more line further: an earlier hit stays, otherwise the new line decides. */
  lemma {:induction false} FirstHitSnoc(p: Pattern, lines: seq<string>, line: string)
    ensures FirstHit(p, lines + [line]) ==
              if FirstHit(p, lines).Some? then FirstHit(p, lines)
              else if FirstMatch(p, line).Some? then Some(|lines|)
              else None
  {
    if lines != [] {
      assert (lines + [line])[1..] == lines[1..] + [line];
      FirstHitSnoc(p, lines[1..], line);
    }
  }

  /**
   * In terms of the pattern's language: no line has a hit exactly when no
   * piece of any line fits; a hit is a fitting piece, and no piece of an
   * earlier line fits.
   */
  lemma FirstHitIsLeftmost(p: Pattern, lines: seq<string>)
    ensures FirstHit(p, lines).None? <==>
              forall i, j, f :: 0 <= i < |lines| && 0 <= j <= f <= |lines[i]| ==> !Fits(p, lines[i][j..f])
    ensures FirstHit(p, lines).Some? ==>
              var i := FirstHit(p, lines).value;
              && Fits(p, FirstMatch(p, lines[i]).value)
              && forall k, j, f :: 0 <= k < i && 0 <= j <= f <= |lines[k]| ==> !Fits(p, lines[k][j..f])
  {
    forall k | 0 <= k < |lines| {
      Leftmost(p, lines[k]);
    }
  }

  // -------------------------------------------------------- amount extractor

  /**
   * The amount the parser reports for `lines`: "" exactly when no line holds
   * money, and otherwise digits, a point and two digits, with no `$`.
   */
  function AmountOf(lines: seq<string>): (amount: string)
    ensures amount == "" <==> FirstHit(Money, lines).None?
    ensures amount != "" ==> IsAmountText(amount) && '$' !in amount
  {
    match FirstHit(Money, lines)
    case None => ""
    case Some(i) =>
      var t := FirstMatch(Money, lines[i]).value;
      FirstMatchExists(Money, lines[i]);
      MoneyShape(t);
      AmountHasNoDollar(ReplaceFirst(t, '$'));
      ReplaceFirst(t, '$')
  }

  lemma CentsFit(u: string)
    requires Fits([Cents], u)
    ensures |u| == 2 && IsDigit(u[0]) && IsDigit(u[1])
  {
    var k := FitsCons(Cents, [], u);
    assert u == u[..k];
    assert IsDigit(u[..k][0]) && IsDigit(u[..k][1]);
  }

  lemma PointCentsFit(u: string)
    requires Fits([Point, Cents], u)
    ensures |u| == 3 && u[0] == '.' && IsDigit(u[1]) && IsDigit(u[2])
  {
    assert [Point, Cents] == [Point] + [Cents];
    var k := FitsCons(Point, [Cents], u);
    assert k == 1;
    assert u[0] == '.' by {
      assert u[..k][0] == u[0];
    }
    CentsFit(u[1..]);
  }

  lemma AmountFit(u: string)
    requires Fits([Units, Point, Cents], u)
    ensures IsAmountText(u)
  {
    assert [Units, Point, Cents] == [Units] + [Point, Cents];
    var k := FitsCons(Units, [Point, Cents], u);
    PointCentsFit(u[k..]);
    assert u[..k] == u[..|u| - 3];
  }

  lemma AmountHasNoDollar(u: string)
    requires IsAmountText(u)
    ensures '$' !in u
  {
    forall i | 0 <= i < |u| ensures u[i] != '$' {
      if i < |u| - 3 {
        assert IsDigit(u[..|u| - 3][i]);
      }
    }
  }

  /** A money match, once its `$` is removed, is an amount text. */
  lemma MoneyShape(t: string)
    requires Fits(Money, t)
    ensures IsAmountText(ReplaceFirst(t, '$'))
  {
    assert Money == [Dollar] + [Units, Point, Cents];
    var k := FitsCons(Dollar, [Units, Point, Cents], t);
    var u := t[k..];
    AmountFit(u);
    if k == 1 {
      assert t[..k][0] == '$';
      assert ReplaceFirst(t, '$') == u;
    } else {
      assert u == t;
      AmountHasNoDollar(t);
      ReplaceFirstRemovesFirst(t, '$');
    }
  }

  /**
   * The amount is "" exactly when no line holds a money match; otherwise it
   * is the leftmost, longest match of the first line that holds one, without
   * its `$`.
   */
  lemma AmountFromFirstMoneyLine(lines: seq<string>)
    ensures AmountOf(lines) == "" <==>
              forall i, j, f :: 0 <= i < |lines| && 0 <= j <= f <= |lines[i]| ==> !Fits(Money, lines[i][j..f])
    ensures AmountOf(lines) != "" ==>
              var i := FirstHit(Money, lines).value;
              var (b, e) := Search(Money, lines[i], 0).value;
              && AmountOf(lines) == ReplaceFirst(lines[i][b..e], '$')
              && Fits(Money, lines[i][b..e])
              && (forall j, f :: 0 <= j < b && j <= f <= |lines[i]| ==> !Fits(Money, lines[i][j..f]))
              && (forall f :: b <= f <= |lines[i]| && Fits(Money, lines[i][b..f]) ==> f <= e)
              && (forall k, j, f :: 0 <= k < i && 0 <= j <= f <= |lines[k]| ==> !Fits(Money, lines[k][j..f]))
  {
    FirstHitIsLeftmost(Money, lines);
    if FirstHit(Money, lines).Some? {
      var i := FirstHit(Money, lines).value;
      Leftmost(Money, lines[i]);
      PatternsSeparated();
      Longest(Money, lines[i]);
    }
  }

  /** One more line leaves a found amount alone, or supplies the first one. */
  lemma AmountOfSnoc(lines: seq<string>, line: string)
    ensures AmountOf(lines + [line]) ==
              if AmountOf(lines) != "" then AmountOf(lines)
              else if FirstMatch(Money, line).Some? then ReplaceFirst(FirstMatch(Money, line).value, '$')
              else ""
  {
    FirstHitSnoc(Money, lines, line);
    if FirstHit(Money, lines).Some? {
      var i := FirstHit(Money, lines).value;
      assert (lines + [line])[i] == lines[i];
    } else {
      assert (lines + [line])[|lines|] == line;
    }
  }

  /**
   * The amount loop: every line is searched for money, but only the first hit
   * is kept (`amountMatch && !amount`).
   */
  method ExtractAmount(lines: seq<string>) returns (amount: string)
    ensures amount == AmountOf(lines)
  {
    amount := "";
    for i := 0 to |lines|
      invariant amount == AmountOf(lines[..i])
    {
      var line := lines[i];
      var amountMatch := FirstMatch(Money, line);
      AmountOfSnoc(lines[..i], line);
      assert lines[..i + 1] == lines[..i] + [line];
      if amountMatch.Some? && amount == "" {
        amount := ReplaceFirst(amountMatch.value, '$');
      }
    }
    assert lines[..|lines|] == lines;
  }

  // ------------------------------------------------------ merchant extractor

  /**
   * The first line, whatever it holds; "" when there is none. Over normalised
   * lines it is "" exactly when there are no lines.
   */
  function Merchant(lines: seq<string>): (merchant: string)
    ensures lines != [] ==> merchant == lines[0]
    ensures (forall k :: 0 <= k < |lines| ==> IsLine(lines[k])) ==> (merchant == "" <==> lines == [])
  {
    if |lines| > 0 then lines[0] else ""
  }

  // ---------------------------------------------------------- date extractor

  /** A two-digit year is put in the 2000s; three- and four-digit years are kept. */
  function Year(y: string): string {
    if |y| == 2 then "20" + y else y
  }

  /** The digits read always end the year; only a two-digit year gains a "20" in front. */
  lemma YearKeepsDigits(y: string)
    ensures var year := Year(y);
            && |y| <= |year| && year[|year| - |y|..] == y
            && (|y| == 2 ==> year[..2] == "20")
            && (|y| != 2 ==> year == y)
            && (AllDigits(y) ==> AllDigits(year))
  {
  }

  /** The conversion of a matched date text to year-month-day. */
  function Reformat(matched: string): string {
    var parts := SplitOn(matched, DateSeps);
    if |parts| == 3 then
      Year(parts[2]) + "-" + PadStart(parts[0], 2, '0') + "-" + PadStart(parts[1], 2, '0')
    else
      matched
  }

  /** The date text as the date pattern describes it. */
  predicate DateFields(m: string, s1: char, d: string, s2: char, y: string) {
    && 1 <= |m| <= 2 && AllDigits(m) && s1 in DateSeps
    && 1 <= |d| <= 2 && AllDigits(d) && s2 in DateSeps
    && 2 <= |y| <= 4 && AllDigits(y)
  }

  lemma YearFit(u: string)
    requires Fits([YearDigits], u)
    ensures 2 <= |u| <= 4 && AllDigits(u)
  {
    var k := FitsCons(YearDigits, [], u);
    assert u == u[..k];
  }

  lemma SepThen(rest: Pattern, u: string) returns (c: char, v: string)
    requires Fits([Sep] + rest, u)
    ensures u == [c] + v && c in DateSeps && Fits(rest, v)
  {
    var k := FitsCons(Sep, rest, u);
    assert u[..k][0] in DateSeps;
    c, v := u[0], u[k..];
    assert u == u[..k] + v;
  }

  lemma DigitsThen(rest: Pattern, u: string) returns (n: string, v: string)
    requires Fits([MonthOrDay] + rest, u)
    ensures u == n + v && 1 <= |n| <= 2 && AllDigits(n) && Fits(rest, v)
  {
    var k := FitsCons(MonthOrDay, rest, u);
    n, v := u[..k], u[k..];
    assert u == n + v;
  }

  lemma DayThenYear(w: string) returns (d: string, s2: char, y: string)
    requires Fits([MonthOrDay, Sep, YearDigits], w)
    ensures w == d + [s2] + y && 1 <= |d| <= 2 && AllDigits(d) && s2 in DateSeps && 2 <= |y| <= 4 && AllDigits(y)
  {
    var v;
    assert [MonthOrDay, Sep, YearDigits] == [MonthOrDay] + [Sep, YearDigits];
    d, v := DigitsThen([Sep, YearDigits], w);
    assert [Sep, YearDigits] == [Sep] + [YearDigits];
    s2, y := SepThen([YearDigits], v);
    YearFit(y);
  }

  /** A date match cuts into month, separator, day, separator and year. */
  lemma DateMatchFields(t: string) returns (m: string, s1: char, d: string, s2: char, y: string)
    requires Fits(NumericDate, t)
    ensures t == m + [s1] + d + [s2] + y && DateFields(m, s1, d, s2, y)
  {
    var u, w;
    assert NumericDate == [MonthOrDay] + [Sep, MonthOrDay, Sep, YearDigits];
    m, u := DigitsThen([Sep, MonthOrDay, Sep, YearDigits], t);
    assert [Sep, MonthOrDay, Sep, YearDigits] == [Sep] + [MonthOrDay, Sep, YearDigits];
    s1, w := SepThen([MonthOrDay, Sep, YearDigits], u);
    d, s2, y := DayThenYear(w);
    JoinFields(t, m, u, s1, w, d, s2, y);
  }

  lemma JoinFields(t: string, m: string, u: string, s1: char, w: string, d: string, s2: char, y: string)
    requires t == m + u && u == [s1] + w && w == d + [s2] + y
    ensures t == m + [s1] + d + [s2] + y
  {
    assert t == m + ([s1] + (d + [s2] + y));
  }

  lemma DigitsHaveNoSeps(s: string)
    requires AllDigits(s)
    ensures forall i :: 0 <= i < |s| ==> s[i] !in DateSeps
  {
  }

  /** Splitting a matched date on its separators gives month, day and year. */
  lemma SplitDate(m: string, s1: char, d: string, s2: char, y: string)
    requires DateFields(m, s1, d, s2, y)
    ensures SplitOn(m + [s1] + d + [s2] + y, DateSeps) == [m, d, y]
  {
    DigitsHaveNoSeps(m);
    DigitsHaveNoSeps(d);
    DigitsHaveNoSeps(y);
    SplitNone(m, DateSeps);
    SplitNone(d, DateSeps);
    SplitNone(y, DateSeps);
    SplitAround(d, s2, y, DateSeps);
    assert m + [s1] + d + [s2] + y == m + [s1] + (d + [s2] + y);
    SplitAround(m, s1, d + [s2] + y, DateSeps);
  }

  lemma DateTextOf(yy: string, mm: string, dd: string)
    requires (|yy| == 3 || |yy| == 4) && |mm| == 2 && |dd| == 2
    requires AllDigits(yy) && AllDigits(mm) && AllDigits(dd)
    ensures IsDateText(yy + "-" + mm + "-" + dd)
  {
    var r := yy + "-" + mm + "-" + dd;
    assert r[..|r| - 6] == yy;
    assert r[|r| - 5..|r| - 3] == mm;
    assert r[|r| - 2..] == dd;
  }

  lemma PadDigits(n: string)
    requires 1 <= |n| <= 2 && AllDigits(n)
    ensures |PadStart(n, 2, '0')| == 2 && AllDigits(PadStart(n, 2, '0'))
  {
    if |n| == 1 {
      assert PadStart(n, 2, '0') == ['0'] + n;
    }
  }

  /**
   * The matched date is read as month/day/year: the year comes first, the
   * month and the day are padded to two digits, and nothing checks their
   * ranges. The result has the year-month-day shape.
   */
  lemma ReformatReadsMonthDayYear(m: string, s1: char, d: string, s2: char, y: string)
    requires DateFields(m, s1, d, s2, y)
    ensures Reformat(m + [s1] + d + [s2] + y) ==
              Year(y) + "-" + PadStart(m, 2, '0') + "-" + PadStart(d, 2, '0')
    ensures IsDateText(Reformat(m + [s1] + d + [s2] + y))
  {
    SplitDate(m, s1, d, s2, y);
    PadDigits(m);
    PadDigits(d);
    assert AllDigits(Year(y)) by {
      if |y| == 2 {
        assert Year(y) == "20" + y;
      }
    }
    DateTextOf(Year(y), PadStart(m, 2, '0'), PadStart(d, 2, '0'));
  }

  /** Any word of the date pattern is converted to the year-month-day shape. */
  lemma ReformatShape(t: string)
    requires Fits(NumericDate, t)
    ensures IsDateText(Reformat(t))
  {
    var m, s1, d, s2, y := DateMatchFields(t);
    ReformatReadsMonthDayYear(m, s1, d, s2, y);
  }

  /**
   * The date the parser reports for `lines`: "" exactly when no line holds a
   * date, and otherwise in the year-month-day shape.
   */
  function DateOf(lines: seq<string>): (date: string)
    ensures date == "" <==> FirstHit(NumericDate, lines).None?
    ensures date != "" ==> IsDateText(date)
  {
    match FirstHit(NumericDate, lines)
    case None => ""
    case Some(i) =>
      var t := FirstMatch(NumericDate, lines[i]).value;
      FirstMatchExists(NumericDate, lines[i]);
      ReformatShape(t);
      Reformat(t)
  }

  /**
   * The date is "" exactly when no line holds a date match. Otherwise it
   * comes from the first line that holds one: from the leftmost match there,
   * which is also the longest word of the pattern at that start (so a year of
   * three or four digits is read whole), read as month/day/year and written
   * year-month-day.
   */
  lemma DateFromFirstDateLine(lines: seq<string>)
    ensures DateOf(lines) == "" <==>
              forall i, j, f :: 0 <= i < |lines| && 0 <= j <= f <= |lines[i]| ==> !Fits(NumericDate, lines[i][j..f])
    ensures DateOf(lines) != "" ==>
              var i := FirstHit(NumericDate, lines).value;
              var (b, e) := Search(NumericDate, lines[i], 0).value;
              && (forall k, j, f :: 0 <= k < i && 0 <= j <= f <= |lines[k]| ==> !Fits(NumericDate, lines[k][j..f]))
              && Fits(NumericDate, lines[i][b..e])
              && (forall j, f :: 0 <= j < b && j <= f <= |lines[i]| ==> !Fits(NumericDate, lines[i][j..f]))
              && (forall f :: b <= f <= |lines[i]| && Fits(NumericDate, lines[i][b..f]) ==> f <= e)
              && exists m, s1, d, s2, y ::
                   && DateFields(m, s1, d, s2, y)
                   && lines[i][b..e] == m + [s1] + d + [s2] + y
                   && DateOf(lines) == Year(y) + "-" + PadStart(m, 2, '0') + "-" + PadStart(d, 2, '0')
  {
    FirstHitIsLeftmost(NumericDate, lines);
    if FirstHit(NumericDate, lines).Some? {
      var i := FirstHit(NumericDate, lines).value;
      Leftmost(NumericDate, lines[i]);
      PatternsSeparated();
      Longest(NumericDate, lines[i]);
      var m, s1, d, s2, y := DateMatchFields(FirstMatch(NumericDate, lines[i]).value);
      ReformatReadsMonthDayYear(m, s1, d, s2, y);
    }
  }

  /** One more line leaves a found date alone, or supplies the first one. */
  lemma DateOfSnoc(lines: seq<string>, line: string)
    ensures DateOf(lines + [line]) ==
              if DateOf(lines) != "" then DateOf(lines)
              else if FirstMatch(NumericDate, line).Some? then Reformat(FirstMatch(NumericDate, line).value)
              else ""
  {
    FirstHitSnoc(NumericDate, lines, line);
    if FirstHit(NumericDate, lines).Some? {
      var i := FirstHit(NumericDate, lines).value;
      assert (lines + [line])[i] == lines[i];
    } else {
      assert (lines + [line])[|lines|] == line;
    }
  }

  /**
   * The date loop: every line is searched for a date, but only the first hit
   * is converted and kept (`dateMatch && !date`).
   */
  method ExtractDate(lines: seq<string>) returns (date: string)
    ensures date == DateOf(lines)
  {
    date := "";
    for i := 0 to |lines|
      invariant date == DateOf(lines[..i])
    {
      var line := lines[i];
      var dateMatch := FirstMatch(NumericDate, line);
      DateOfSnoc(lines[..i], line);
      assert lines[..i + 1] == lines[..i] + [line];
      if dateMatch.Some? && date == "" {
        date := dateMatch.value;
        var parts := SplitOn(date, DateSeps);
        if |parts| == 3 {
          var month := PadStart(parts[0], 2, '0');
          var day := PadStart(parts[1], 2, '0');
          var year := parts[2];
          if |year| == 2 {
            year := "20" + year;
          }
          date := year + "-" + month + "-" + day;
        }
      }
    }
    assert lines[..|lines|] == lines;
  }

  // ---------------------------------------------------------------- composer

  /**
   * The returned object: amount and merchant pass through (`x || ''` is `x`
   * for a string), category and notes are fixed, and an empty date reaches
   * `new date()`, which throws.
   */
  function Compose(amount: string, merchant: string, date: string): (r: Result<Draft, ScanError>)
    ensures r.Failure? <==> date == ""
    ensures r.Failure? ==> r.error == DateIsNotAConstructor
    ensures r.Success? ==> r.value == Draft(amount, merchant, date, "Other", "Scanned from receipt")
  {
    if date == "" then Failure(DateIsNotAConstructor)
    else Success(Draft(amount, merchant, date, "Other", "Scanned from receipt"))
  }

  /**
   * `parseReceiptText(text)`: a draft, or the error it throws. The only error
   * is the one of `new date()`; a draft has a year-month-day date and an
   * amount that is "" or an amount text without `$`.
   */
  function Parse(text: string): (r: Result<Draft, ScanError>)
    ensures r.Failure? ==> r.error == DateIsNotAConstructor
    ensures r.Success? ==> IsDateText(r.value.date)
    ensures r.Success? ==> r.value.amount == "" || (IsAmountText(r.value.amount) && '$' !in r.value.amount)
  {
    var lines := Normalise(text);
    Compose(AmountOf(lines), Merchant(lines), DateOf(lines))
  }

  method ParseReceiptText(text: string) returns (r: Result<Draft, ScanError>)
    ensures r == Parse(text)
  {
    var lines := Normalise(text);
    var amount := ExtractAmount(lines);
    var merchant := Merchant(lines);
    var date := ExtractDate(lines);
    r := Compose(amount, merchant, date);
  }

  /** Some piece of some line is a word of the date pattern. */
  ghost predicate HoldsDate(lines: seq<string>) {
    exists i, j, f :: 0 <= i < |lines| && 0 <= j <= f <= |lines[i]| && Fits(NumericDate, lines[i][j..f])
  }

  /**
   * What a scan of `text` yields: it fails exactly when no line holds a date
   * match, which includes every blank text; otherwise the draft has category
   * "Other", notes "Scanned from receipt", the first line as merchant, and
   * the amount and the date the two extractors find in the lines.
   */
  lemma ParseOutcome(text: string)
    ensures Parse(text).Success? <==> HoldsDate(Normalise(text))
    ensures AllWhitespace(text) ==> Parse(text) == Failure(DateIsNotAConstructor)
    ensures Parse(text).Success? ==>
              var draft := Parse(text).value;
              && draft.category == "Other" && draft.notes == "Scanned from receipt"
              && |Normalise(text)| > 0 && draft.merchant == Normalise(text)[0]
              && draft.amount == AmountOf(Normalise(text))
              && draft.date == DateOf(Normalise(text))
  {
    DateFromFirstDateLine(Normalise(text));
    NoLinesIffBlank(text);
  }
}
