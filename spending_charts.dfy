/**
 * The data behind the two spending charts: spending per category, and
 * spending per day in ascending date order. Amounts are whole cents and each
 * expense's day is given as its `YYYY-MM-DD` key; the component renders
 * nothing when there are no expenses.
 */
module SpendingCharts {
  import opened Wrappers
  import opened Strings
  import opened Grouping

  /** An expense as the charts read it. */
  datatype Expense = Expense(category: string, amount: int, dateKey: string)

  /** The two series handed to the pie chart and the line chart. */
  datatype Charts = Charts(byCategory: seq<Entry<string>>, byDate: seq<Entry<string>>)

  function CategoryItems(expenses: seq<Expense>): seq<Entry<string>> {
    seq(|expenses|, i requires 0 <= i < |expenses| => Entry(expenses[i].category, expenses[i].amount))
  }

  function DateItems(expenses: seq<Expense>): seq<Entry<string>> {
    seq(|expenses|, i requires 0 <= i < |expenses| => Entry(expenses[i].dateKey, expenses[i].amount))
  }

  /**
   * The comparator's order on `YYYY-MM-DD` keys: for such keys the
   * difference of the two dates is negative exactly when the first key is
   * lexicographically smaller.
   */
  predicate NotLater(a: string, b: string) {
    !LexLess(b, a)
  }

  predicate SortedByDate(es: seq<Entry<string>>) {
    forall i, j :: 0 <= i < j < |es| ==> NotLater(es[i].key, es[j].key)
  }

  /** Places `e` after every entry of `s` that is not later than it. */
  function Insert(e: Entry<string>, s: seq<Entry<string>>): (r: seq<Entry<string>>)
    ensures multiset(r) == multiset(s) + multiset{e}
  {
    if s == [] then [e]
    else if LexLess(e.key, s[0].key) then [e] + s
    else
      assert s == [s[0]] + s[1..];
      [s[0]] + Insert(e, s[1..])
  }

  lemma EntryKeysCons(x: Entry<string>, s: seq<Entry<string>>)
    ensures EntryKeys([x] + s) == [x.key] + EntryKeys(s)
  {
  }

  lemma DistinctCons(k: string, ks: seq<string>)
    requires Distinct(ks) && k !in ks
    ensures Distinct([k] + ks)
  {
  }

  lemma {:induction false} InsertKeys(e: Entry<string>, s: seq<Entry<string>>)
    ensures forall k :: k in EntryKeys(Insert(e, s)) <==> k == e.key || k in EntryKeys(s)
  {
    if s == [] {
      assert EntryKeys(Insert(e, s)) == [e.key];
    } else if LexLess(e.key, s[0].key) {
      EntryKeysCons(e, s);
    } else {
      InsertKeys(e, s[1..]);
      EntryKeysCons(s[0], s[1..]);
      assert s == [s[0]] + s[1..];
      EntryKeysCons(s[0], Insert(e, s[1..]));
    }
  }

  /** Inserting into a sorted sequence keeps it sorted. */
  lemma {:induction false} InsertSorted(e: Entry<string>, s: seq<Entry<string>>)
    requires SortedByDate(s)
    ensures SortedByDate(Insert(e, s))
  {
    if s == [] {
    } else if LexLess(e.key, s[0].key) {
      forall j | 0 <= j < |s|
        ensures NotLater(e.key, s[j].key)
      {
        if LexLess(s[j].key, e.key) {
          LexLessTransitive(s[j].key, e.key, s[0].key);
          LexLessIrreflexive(s[0].key);
        }
      }
    } else {
      var rest := Insert(e, s[1..]);
      InsertSorted(e, s[1..]);
      forall j | 0 <= j < |rest|
        ensures NotLater(s[0].key, rest[j].key)
      {
        assert rest[j] in multiset(rest);
        assert rest[j] == e || rest[j] in s[1..];
      }
    }
  }

  /**
   * `.sort((a, b) => new Date(a.date) - new Date(b.date))`: a sort into
   * ascending date order that keeps every entry. Whether the sort is stable
   * does not matter here: the grouped day keys are distinct, so the order is
   * fixed by the dates alone (`StrictlyAscending`).
   */
  function SortByDate(es: seq<Entry<string>>): (r: seq<Entry<string>>)
    ensures SortedByDate(r)
    ensures multiset(r) == multiset(es)
  {
    if es == [] then []
    else
      var front := es[..|es| - 1];
      assert es == front + [es[|es| - 1]];
      InsertSorted(es[|es| - 1], SortByDate(front));
      Insert(es[|es| - 1], SortByDate(front))
  }

  /** Inserting a key not yet present keeps the keys distinct. */
  lemma {:induction false} InsertDistinct(e: Entry<string>, s: seq<Entry<string>>)
    requires Distinct(EntryKeys(s)) && e.key !in EntryKeys(s)
    ensures Distinct(EntryKeys(Insert(e, s)))
  {
    if s == [] {
      assert EntryKeys(Insert(e, s)) == [e.key];
    } else if LexLess(e.key, s[0].key) {
      EntryKeysCons(e, s);
      DistinctCons(e.key, EntryKeys(s));
    } else {
      assert s == [s[0]] + s[1..];
      EntryKeysCons(s[0], s[1..]);
      InsertDistinct(e, s[1..]);
      InsertKeys(e, s[1..]);
      EntryKeysCons(s[0], Insert(e, s[1..]));
      DistinctCons(s[0].key, EntryKeys(Insert(e, s[1..])));
    }
  }

  /** Sorting keeps exactly the keys it was given. */
  lemma {:induction false} SortKeys(es: seq<Entry<string>>)
    ensures forall k :: k in EntryKeys(SortByDate(es)) <==> k in EntryKeys(es)
  {
    if es != [] {
      var front, last := es[..|es| - 1], es[|es| - 1];
      assert EntryKeys(es) == EntryKeys(front) + [last.key];
      SortKeys(front);
      InsertKeys(last, SortByDate(front));
    }
  }

  /** Sorting groups whose keys are distinct keeps them distinct. */
  lemma {:induction false} SortKeepsDistinct(es: seq<Entry<string>>)
    requires Distinct(EntryKeys(es))
    ensures Distinct(EntryKeys(SortByDate(es)))
  {
    if es != [] {
      var front, last := es[..|es| - 1], es[|es| - 1];
      assert EntryKeys(es) == EntryKeys(front) + [last.key];
      SortKeepsDistinct(front);
      SortKeys(front);
      InsertDistinct(last, SortByDate(front));
    }
  }

  /** In a sorted sequence whose keys are distinct, the dates strictly ascend. */
  lemma StrictlyAscending(es: seq<Entry<string>>)
    requires SortedByDate(es) && Distinct(EntryKeys(es))
    ensures forall i, j :: 0 <= i < j < |es| ==> LexLess(es[i].key, es[j].key)
  {
    forall i, j | 0 <= i < j < |es|
      ensures LexLess(es[i].key, es[j].key)
    {
      assert EntryKeys(es)[i] != EntryKeys(es)[j];
      LexLessTotal(es[i].key, es[j].key);
    }
  }

  /** `categoryData`: the expenses grouped by category. */
  method CategoryData(expenses: seq<Expense>) returns (data: seq<Entry<string>>)
    ensures data == Grouped(CategoryItems(expenses))
  {
    data := GroupSum(CategoryItems(expenses));
  }

  /** `dateData`: the expenses grouped by day, then sorted by date. */
  method DateData(expenses: seq<Expense>) returns (data: seq<Entry<string>>)
    ensures data == SortByDate(Grouped(DateItems(expenses)))
  {
    var groups := GroupSum(DateItems(expenses));
    data := SortByDate(groups);
  }

  /**
   * The day series: one entry per day that has an expense, in strictly
   * ascending date order, each holding the sum of that day's amounts.
   */
  lemma DateDataShape(expenses: seq<Expense>)
    ensures var d := SortByDate(Grouped(DateItems(expenses)));
            && (forall i, j :: 0 <= i < j < |d| ==> LexLess(d[i].key, d[j].key))
            && (forall i :: 0 <= i < |expenses| ==> expenses[i].dateKey in EntryKeys(d))
            && (forall i :: 0 <= i < |d| ==> d[i].key in EntryKeys(DateItems(expenses)))
            && (forall i :: 0 <= i < |d| ==> d[i].amount == SumFor(DateItems(expenses), d[i].key))
  {
    var items := DateItems(expenses);
    var g := Grouped(items);
    var d := SortByDate(g);
    SortKeepsDistinct(g);
    StrictlyAscending(d);
    SortKeys(g);
    forall i | 0 <= i < |expenses|
      ensures expenses[i].dateKey in EntryKeys(d)
    {
      assert items[i].key == expenses[i].dateKey;
      assert items[i].key in EntryKeys(g);
    }
    forall i | 0 <= i < |d|
      ensures d[i].key in EntryKeys(items) && d[i].amount == SumFor(items, d[i].key)
    {
      SortedEntryFrom(g, i);
    }
  }

  /** Every entry of the sorted series is one of the groups. */
  lemma SortedEntryFrom(g: seq<Entry<string>>, i: nat)
    requires i < |SortByDate(g)|
    ensures exists j :: 0 <= j < |g| && g[j] == SortByDate(g)[i]
  {
    var d := SortByDate(g);
    assert d[i] in multiset(d);
    assert d[i] in multiset(g);
  }

  /**
   * `SpendingCharts({expenses})`: both series, or nothing at all when there
   * are no expenses.
   */
  method Render(expenses: seq<Expense>) returns (charts: Option<Charts>)
    ensures charts.None? <==> expenses == []
    ensures charts.Some? ==> charts.value.byCategory == Grouped(CategoryItems(expenses))
    ensures charts.Some? ==> charts.value.byDate == SortByDate(Grouped(DateItems(expenses)))
  {
    var categoryData := CategoryData(expenses);
    var dateData := DateData(expenses);
    if |expenses| == 0 {
      return None;
    }
    charts := Some(Charts(categoryData, dateData));
  }

  /** With no expenses both series are empty; with any, neither is. */
  lemma EmptySeries(expenses: seq<Expense>)
    ensures Grouped(CategoryItems(expenses)) == [] <==> expenses == []
    ensures SortByDate(Grouped(DateItems(expenses))) == [] <==> expenses == []
  {
    GroupedEmpty(CategoryItems(expenses));
    GroupedEmpty(DateItems(expenses));
    var d := SortByDate(Grouped(DateItems(expenses)));
    assert |d| == |Grouped(DateItems(expenses))| by {
      assert |multiset(d)| == |multiset(Grouped(DateItems(expenses)))|;
    }
  }
}
