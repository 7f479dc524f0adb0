/**
 * The group-by fold behind both chart series: an accumulator list of
 * `{key, amount}` entries, to which each item either adds its amount (the
 * entry `find` returns) or appends a new entry. The fold is specified by
 * `Grouped`: one entry per distinct key, in the order the keys first occur,
 * holding the sum of that key's amounts.
 */
module Grouping {

  import opened Strings

  /**
   * A key with an amount in cents: an expense as the fold sees it (the key it
   * is grouped by and its amount), or an accumulator entry (`{name, value}` or
   * `{date, amount}`, the key and the total so far).
   */
  datatype Entry<K> = Entry(key: K, amount: int)

  function EntryKeys<K>(entries: seq<Entry<K>>): (ks: seq<K>)
    ensures |ks| == |entries|
    ensures forall i :: 0 <= i < |entries| ==> ks[i] == entries[i].key
  {
    seq(|entries|, i requires 0 <= i < |entries| => entries[i].key)
  }

  predicate Distinct<K(==)>(ks: seq<K>) {
    forall i, j :: 0 <= i < j < |ks| ==> ks[i] != ks[j]
  }

  /** Appending never moves the first occurrence of a key already present. */
  lemma {:induction false} PositionSnoc<K>(ks: seq<K>, x: K, k: K)
    ensures Position(ks + [x], k) == if k in ks then Position(ks, k) else if k == x then |ks| else |ks| + 1
  {
    if ks != [] && ks[0] != k {
      assert (ks + [x])[1..] == ks[1..] + [x];
      PositionSnoc(ks[1..], x, k);
    }
  }

  /** The distinct keys of `ks`, each once, in the order of their first occurrence. */
  function Dedup<K(==)>(ks: seq<K>): (d: seq<K>)
    ensures forall i :: 0 <= i < |ks| ==> ks[i] in d
    ensures forall i :: 0 <= i < |d| ==> d[i] in ks
    ensures Distinct(d)
  {
    if ks == [] then []
    else
      var d := Dedup(ks[..|ks| - 1]);
      var k := ks[|ks| - 1];
      assert ks == ks[..|ks| - 1] + [k];
      if k in d then d else d + [k]
  }

  /** Dedup keeps the keys ordered by where each first occurs. */
  lemma {:induction false} DedupFirstOccurrence<K>(ks: seq<K>)
    ensures forall i, j :: 0 <= i < j < |Dedup(ks)| ==> Position(ks, Dedup(ks)[i]) < Position(ks, Dedup(ks)[j])
  {
    if ks != [] {
      var front, k := ks[..|ks| - 1], ks[|ks| - 1];
      assert ks == front + [k];
      DedupFirstOccurrence(front);
      var d := Dedup(front);
      forall y | y in front
        ensures Position(ks, y) == Position(front, y) < |front|
      {
        PositionSnoc(front, k, y);
      }
      if k !in d {
        PositionSnoc(front, k, k);
        assert Dedup(ks) == d + [k];
      }
    }
  }

  /** The sum of the amounts of the items whose key is `k`. */
  function SumFor<K(==)>(items: seq<Entry<K>>, k: K): int {
    if items == [] then 0
    else
      var last := items[|items| - 1];
      SumFor(items[..|items| - 1], k) + (if last.key == k then last.amount else 0)
  }

  lemma SumForAbsent<K>(items: seq<Entry<K>>, k: K)
    requires k !in EntryKeys(items)
    ensures SumFor(items, k) == 0
  {
    if items != [] {
      assert EntryKeys(items[..|items| - 1]) == EntryKeys(items)[..|items| - 1];
      SumForAbsent(items[..|items| - 1], k);
    }
  }

  /**
   * What the fold computes: one entry per distinct key, in the order the keys
   * first occur, each holding the sum of that key's amounts.
   */
  function Grouped<K(==)>(items: seq<Entry<K>>): (g: seq<Entry<K>>)
    ensures Distinct(EntryKeys(g))
    ensures forall i :: 0 <= i < |items| ==> items[i].key in EntryKeys(g)
    ensures forall i :: 0 <= i < |g| ==> g[i].key in EntryKeys(items)
    ensures forall i :: 0 <= i < |g| ==> g[i].amount == SumFor(items, g[i].key)
    ensures EntryKeys(g) == Dedup(EntryKeys(items))
  {
    var d := Dedup(EntryKeys(items));
    var g := seq(|d|, i requires 0 <= i < |d| => Entry(d[i], SumFor(items, d[i])));
    assert EntryKeys(g) == d;
    g
  }

  /** No items, no entries. */
  lemma GroupedEmpty<K>(items: seq<Entry<K>>)
    ensures Grouped(items) == [] <==> items == []
  {
    if items != [] {
      assert items[0].key in EntryKeys(items);
      assert items[0].key in EntryKeys(Grouped(items));
    }
  }

  lemma SumForSnoc<K>(items: seq<Entry<K>>, x: Entry<K>, k: K)
    ensures SumFor(items + [x], k) == SumFor(items, k) + (if x.key == k then x.amount else 0)
  {
    assert (items + [x])[..|items|] == items;
  }

  lemma KeysSnoc<K>(items: seq<Entry<K>>, x: Entry<K>)
    ensures EntryKeys(items + [x]) == EntryKeys(items) + [x.key]
  {
  }

  lemma DedupSnoc<K>(ks: seq<K>, k: K)
    ensures Dedup(ks + [k]) == if k in ks then Dedup(ks) else Dedup(ks) + [k]
  {
    assert (ks + [k])[..|ks|] == ks;
    assert k in ks ==> k in Dedup(ks) by {
      if k in ks {
        var i :| 0 <= i < |ks| && ks[i] == k;
      }
    }
  }

  /**
   * Folding one more item into the groups of `items`: its amount is added to
   * the entry with its key, if there is one, and otherwise a new entry is
   * appended; no other entry changes.
   */
  lemma {:induction false} GroupedSnoc<K>(items: seq<Entry<K>>, x: Entry<K>)
    ensures var g := Grouped(items);
            var i := Position(EntryKeys(g), x.key);
            Grouped(items + [x]) ==
              if i < |g| then g[i := Entry(x.key, g[i].amount + x.amount)]
              else g + [Entry(x.key, x.amount)]
  {
    var g := Grouped(items);
    var i := Position(EntryKeys(g), x.key);
    if i < |g| {
      assert EntryKeys(g)[i] == x.key;
      GroupedAdds(items, x, i);
    } else {
      assert x.key !in EntryKeys(g);
      GroupedAppends(items, x);
    }
  }

  lemma GroupedAdds<K>(items: seq<Entry<K>>, x: Entry<K>, i: nat)
    requires i < |Grouped(items)| && Grouped(items)[i].key == x.key
    ensures Grouped(items + [x]) == Grouped(items)[i := Entry(x.key, Grouped(items)[i].amount + x.amount)]
  {
    var g, g' := Grouped(items), Grouped(items + [x]);
    var d := Dedup(EntryKeys(items));
    KeysSnoc(items, x);
    GroupedAt(items, i);
    assert d[i] in EntryKeys(items);
    DedupSnoc(EntryKeys(items), x.key);
    assert |g'| == |g| == |d|;
    forall j | 0 <= j < |d|
      ensures g'[j] == g[i := Entry(x.key, g[i].amount + x.amount)][j]
    {
      GroupedAt(items, j);
      GroupedAt(items + [x], j);
      SumForSnoc(items, x, d[j]);
      assert j != i ==> d[j] != d[i];
    }
  }

  lemma GroupedAt<K>(items: seq<Entry<K>>, j: nat)
    requires j < |Dedup(EntryKeys(items))|
    ensures j < |Grouped(items)|
    ensures Grouped(items)[j] == Entry(Dedup(EntryKeys(items))[j], SumFor(items, Dedup(EntryKeys(items))[j]))
  {
  }

  lemma GroupedAppends<K>(items: seq<Entry<K>>, x: Entry<K>)
    requires x.key !in EntryKeys(items)
    ensures Grouped(items + [x]) == Grouped(items) + [Entry(x.key, x.amount)]
  {
    var g, g' := Grouped(items), Grouped(items + [x]);
    var d := Dedup(EntryKeys(items));
    KeysSnoc(items, x);
    DedupSnoc(EntryKeys(items), x.key);
    assert |g'| == |d| + 1;
    forall j | 0 <= j < |d| + 1
      ensures g'[j] == (g + [Entry(x.key, x.amount)])[j]
    {
      GroupedAt(items + [x], j);
      if j < |d| {
        GroupedAt(items, j);
        SumForSnoc(items, x, d[j]);
        assert d[j] != x.key;
      } else {
        SumForSnoc(items, x, x.key);
        SumForAbsent(items, x.key);
      }
    }
  }

  /** The accumulator array of `expenses.reduce(..., [])`, updated in place. */
  class Groups<K(==)> {
    var entries: seq<Entry<K>>

    constructor ()
      ensures entries == []
    {
      entries := [];
    }

    /** `acc.find(item => item.key === k)`, as an index: `|entries|` when none matches. */
    method Find(k: K) returns (i: nat)
      ensures i == Position(EntryKeys(entries), k)
    {
      i := 0;
      while i < |entries| && entries[i].key != k
        invariant i <= |entries|
        invariant forall j :: 0 <= j < i ==> entries[j].key != k
      {
        i := i + 1;
      }
      PositionIs(EntryKeys(entries), k, i);
    }

    /**
     * One step of the fold: the amount is added to the entry `find` returns,
     * or a new entry is pushed; no other entry changes.
     */
    method Add(k: K, amount: int)
      modifies this
      ensures var i := Position(EntryKeys(old(entries)), k);
              if i < |old(entries)| then entries == old(entries)[i := Entry(k, old(entries)[i].amount + amount)]
              else entries == old(entries) + [Entry(k, amount)]
    {
      var i := Find(k);
      if i < |entries| {
        entries := entries[i := Entry(k, entries[i].amount + amount)];
      } else {
        entries := entries + [Entry(k, amount)];
      }
    }
  }

  lemma {:induction false} PositionIs<K>(ks: seq<K>, k: K, i: nat)
    requires i <= |ks|
    requires forall j :: 0 <= j < i ==> ks[j] != k
    requires i < |ks| ==> ks[i] == k
    requires i == |ks| ==> k !in ks
    ensures Position(ks, k) == i
  {
    if ks != [] && ks[0] != k {
      PositionIs(ks[1..], k, i - 1);
    }
  }

  /** One more element of a prefix. */
  lemma TakeSnoc<T>(s: seq<T>, n: nat)
    requires n < |s|
    ensures s[..n + 1] == s[..n] + [s[n]]
  {
  }

  /** `items.reduce(fold, [])`: the groups of all items. */
  method GroupSum<K(==)>(items: seq<Entry<K>>) returns (groups: seq<Entry<K>>)
    ensures groups == Grouped(items)
  {
    var acc := new Groups<K>();
    assert items[..0] == [];
    for n := 0 to |items|
      invariant acc.entries == Grouped(items[..n])
    {
      GroupedSnoc(items[..n], items[n]);
      acc.Add(items[n].key, items[n].amount);
      assert acc.entries == Grouped(items[..n] + [items[n]]);
      TakeSnoc(items, n);
    }
    assert items[..|items|] == items;
    groups := acc.entries;
  }
}
