/** The sales trends of the overview sheet (l.54-58 per week, l.95-99 per
    month): the rows are summed per (period, year), the yearly sums are
    averaged per period, and the result is sorted by period. The module is
    generic in the row type; `periodYear` reads the (period, year) pair off a
    row. */
module Periods {
  import opened Tables

  function PeriodOf(g: Group<(int, int)>): int { g.key.0 }
  function FirstOf(k: (int, int)): int { k.0 }
  function SecondOf(k: (int, int)): int { k.1 }
  function PeriodKey(g: Group<int>): real { g.key as real }

  /** Sales per (period, year). */
  function YearlySums<T(!new)>(s: seq<T>, periodYear: T -> (int, int), val: T -> real): seq<Group<(int, int)>> {
    GroupSum(s, periodYear, val)
  }

  /** The mean over the years of each period's yearly sums, sorted by period
      (the `avg_sales` column). */
  function Trend<T(!new)>(s: seq<T>, periodYear: T -> (int, int), val: T -> real): seq<Group<int>> {
    SortBy(GroupMean(YearlySums(s, periodYear, val), PeriodOf, ValueOf), PeriodKey)
  }

  /** The years in which period `p` has rows. */
  ghost function YearsWith<T(!new)>(s: seq<T>, periodYear: T -> (int, int), p: int): set<int> {
    set x | x in s && periodYear(x).0 == p :: periodYear(x).1
  }

  /** A table sorted by its integer keys, one row per key, has strictly
      increasing keys. */
  lemma StrictlyAscending(t: seq<Group<int>>)
    requires Ascending(t, PeriodKey) && DistinctKeys(t)
    ensures forall i, j :: 0 <= i < j < |t| ==> t[i].key < t[j].key
  {
    forall i, j | 0 <= i < j < |t| ensures t[i].key < t[j].key {
      assert PeriodKey(t[i]) <= PeriodKey(t[j]);
    }
  }

  /** A trend lists its periods in strictly increasing order. */
  lemma TrendAscending<T(!new)>(s: seq<T>, periodYear: T -> (int, int), val: T -> real)
    ensures forall i, j :: 0 <= i < j < |Trend(s, periodYear, val)| ==> Trend(s, periodYear, val)[i].key < Trend(s, periodYear, val)[j].key
  {
    var gm := GroupMean(YearlySums(s, periodYear, val), PeriodOf, ValueOf);
    SortKeepsDistinctKeys(gm, PeriodKey);
    StrictlyAscending(SortBy(gm, PeriodKey));
  }

  /** A trend has a row for exactly the periods present. */
  lemma TrendPeriods<T(!new)>(s: seq<T>, periodYear: T -> (int, int), val: T -> real, period: T -> int)
    requires forall x :: periodYear(x).0 == period(x)
    ensures GroupKeys(Trend(s, periodYear, val)) == KeySet(s, period)
  {
    var gs := YearlySums(s, periodYear, val);
    var gm := GroupMean(gs, PeriodOf, ValueOf);
    var t := SortBy(gm, PeriodKey);
    forall g | g in t ensures g.key in KeySet(s, period) {
      assert g.key in KeySet(gs, PeriodOf);
      var h :| h in gs && PeriodOf(h) == g.key;
      assert h.key in GroupKeys(gs);
      var x :| x in s && periodYear(x) == h.key;
    }
    forall x | x in s ensures period(x) in GroupKeys(t) {
      assert periodYear(x) in KeySet(s, periodYear);
      var h :| h in gs && h.key == periodYear(x);
      assert PeriodOf(h) in GroupKeys(gm);
      var g :| g in gm && g.key == PeriodOf(h);
      assert g in t;
    }
  }

  /** The (period, year) pairs present for period `p`. */
  ghost function PairsWith<T(!new)>(s: seq<T>, periodYear: T -> (int, int), p: int): set<(int, int)> {
    set k | k in Keys(s, periodYear) && FirstOf(k) == p
  }

  /** Summing the rows of the pairs of period `p` is summing the rows of `p`. */
  lemma PairsWithSum<T(!new)>(s: seq<T>, periodYear: T -> (int, int), val: T -> real, period: T -> int, p: int)
    requires forall x :: periodYear(x).0 == period(x)
    ensures SumIn(s, periodYear, val, PairsWith(s, periodYear, p)) == SumIn(s, period, val, {p})
  {
    SumInSameRows(s, periodYear, PairsWith(s, periodYear, p), period, {p}, val);
  }

  /** Period `p` has one pair per year in which it has rows. */
  lemma PairsWithCount<T(!new)>(s: seq<T>, periodYear: T -> (int, int), p: int)
    ensures |PairsWith(s, periodYear, p)| == |YearsWith(s, periodYear, p)|
  {
    var pairs := PairsWith(s, periodYear, p);
    forall a, b | a in pairs && b in pairs && SecondOf(a) == SecondOf(b) ensures a == b {
      assert a.0 == p && b.0 == p;
    }
    InjectiveImage(pairs, SecondOf);
    assert Image(pairs, SecondOf) == YearsWith(s, periodYear, p) by {
      forall k | k in pairs ensures SecondOf(k) in YearsWith(s, periodYear, p) {
        var x :| x in s && periodYear(x) == k;
      }
      forall y | y in YearsWith(s, periodYear, p) ensures y in Image(pairs, SecondOf) {
        var x :| x in s && periodYear(x).0 == p && periodYear(x).1 == y;
        assert periodYear(x) in pairs;
      }
    }
  }

  /** A trend row is the mean, over the years in which its period has rows,
      of the period's yearly sales: its value times the number of those years
      is the period's total over all years. */
  lemma TrendIsMeanOverYears<T(!new)>(s: seq<T>, periodYear: T -> (int, int), val: T -> real, period: T -> int, g: Group<int>)
    requires forall x :: periodYear(x).0 == period(x)
    requires g in Trend(s, periodYear, val)
    ensures |YearsWith(s, periodYear, g.key)| > 0
    ensures Times(g.value, |YearsWith(s, periodYear, g.key)|) == SumIn(s, period, val, {g.key})
  {
    TrendRowScaled(s, periodYear, val, g);
    YearlySumsCoarsen(s, periodYear, val, g.key);
    PairsWithSum(s, periodYear, val, period, g.key);
    PairsWithCount(s, periodYear, g.key);
  }

  lemma TrendRowScaled<T(!new)>(s: seq<T>, periodYear: T -> (int, int), val: T -> real, g: Group<int>)
    requires g in Trend(s, periodYear, val)
    ensures CountIn(YearlySums(s, periodYear, val), PeriodOf, {g.key}) > 0
    ensures Times(g.value, CountIn(YearlySums(s, periodYear, val), PeriodOf, {g.key})) == SumIn(YearlySums(s, periodYear, val), PeriodOf, ValueOf, {g.key})
  {
    assert g in GroupMean(YearlySums(s, periodYear, val), PeriodOf, ValueOf);
  }

  /** Grouping the yearly sums by period: period `p` sums and counts its pairs. */
  lemma YearlySumsCoarsen<T(!new)>(s: seq<T>, periodYear: T -> (int, int), val: T -> real, p: int)
    ensures SumIn(YearlySums(s, periodYear, val), PeriodOf, ValueOf, {p}) == SumIn(s, periodYear, val, PairsWith(s, periodYear, p))
    ensures CountIn(YearlySums(s, periodYear, val), PeriodOf, {p}) == |PairsWith(s, periodYear, p)|
  {
    var ks := Keys(s, periodYear);
    assert YearlySums(s, periodYear, val) == Tally(s, periodYear, val, ks);
    TallyCoarsen(s, periodYear, val, ks, FirstOf, PeriodOf, p);
    assert KeysMapping(ks, FirstOf, p) == PairsWith(s, periodYear, p);
  }

  // ---------------------------------------------------------------------------
  // The `max_sales` column

  /** The largest yearly sum of each period, as a table keyed by the period
      value (`groupby("week")["sales"].max()`). */
  function PeriodMaxima<T(!new)>(s: seq<T>, periodYear: T -> (int, int), val: T -> real): seq<Group<int>> {
    GroupMax(YearlySums(s, periodYear, val), PeriodOf, ValueOf)
  }

  /** Assigning a keyed series to a table whose index is the row position
      0, 1, ...: row `i` receives the value keyed `i`, or nothing (NaN). */
  function AlignByPosition(t: seq<Group<int>>, m: seq<Group<int>>): (r: seq<Option<real>>)
    ensures |r| == |t|
    ensures forall i :: 0 <= i < |r| ==> (r[i].None? <==> forall g :: g in m ==> g.key != i)
    ensures forall i :: 0 <= i < |r| && r[i].Some? ==> Group(i, r[i].value) in m
  {
    seq(|t|, i => Lookup(m, i))
  }

  /** Matching a keyed series to the rows of a table by key: row `i` receives
      the value keyed by its own key. */
  function AlignByKey(t: seq<Group<int>>, m: seq<Group<int>>): (r: seq<Option<real>>)
    ensures |r| == |t|
    ensures forall i :: 0 <= i < |r| ==> (r[i].None? <==> forall g :: g in m ==> g.key != t[i].key)
    ensures forall i :: 0 <= i < |r| && r[i].Some? ==> Group(t[i].key, r[i].value) in m
  {
    seq(|t|, i requires 0 <= i < |t| => Lookup(m, t[i].key))
  }

  /** The column as l.57 and l.98 assign it: the maxima, keyed by period
      value, are aligned on the trend table's index, which is the row
      position, so the row at position `i` receives the maximum of period
      VALUE `i`, and NaN when there is no such period. */
  function MaxColumnAsWritten<T(!new)>(s: seq<T>, periodYear: T -> (int, int), val: T -> real): seq<Option<real>> {
    AlignByPosition(Trend(s, periodYear, val), PeriodMaxima(s, periodYear, val))
  }

  /** The intended column: each trend row receives the maximum of its own
      period. */
  function MaxColumn<T(!new)>(s: seq<T>, periodYear: T -> (int, int), val: T -> real): seq<Option<real>> {
    AlignByKey(Trend(s, periodYear, val), PeriodMaxima(s, periodYear, val))
  }

  /** The period of a trend row is a period of the yearly sums. */
  lemma TrendKey<T(!new)>(s: seq<T>, periodYear: T -> (int, int), val: T -> real, i: nat)
    requires i < |Trend(s, periodYear, val)|
    ensures Trend(s, periodYear, val)[i].key in KeySet(YearlySums(s, periodYear, val), PeriodOf)
  {
    var t := Trend(s, periodYear, val);
    assert t[i] in GroupMean(YearlySums(s, periodYear, val), PeriodOf, ValueOf);
  }

  /** Every period of the trend has a maximum, and it is the largest of the
      period's yearly sums. */
  lemma MaxColumnIsPeriodMax<T(!new)>(s: seq<T>, periodYear: T -> (int, int), val: T -> real, i: nat)
    requires i < |Trend(s, periodYear, val)|
    ensures MaxColumn(s, periodYear, val)[i].Some?
    ensures exists h :: h in YearlySums(s, periodYear, val) && PeriodOf(h) == Trend(s, periodYear, val)[i].key &&
              h.value == MaxColumn(s, periodYear, val)[i].value
    ensures forall h :: h in YearlySums(s, periodYear, val) && PeriodOf(h) == Trend(s, periodYear, val)[i].key ==>
              h.value <= MaxColumn(s, periodYear, val)[i].value
  {
    TrendKey(s, periodYear, val, i);
    LookupMax(YearlySums(s, periodYear, val), PeriodOf, ValueOf, Trend(s, periodYear, val)[i].key);
  }

  /** The intended maximum line never runs below the average line. */
  lemma MaxColumnAboveMean<T(!new)>(s: seq<T>, periodYear: T -> (int, int), val: T -> real, i: nat)
    requires i < |Trend(s, periodYear, val)|
    ensures MaxColumn(s, periodYear, val)[i].Some?
    ensures Trend(s, periodYear, val)[i].value <= MaxColumn(s, periodYear, val)[i].value
  {
    var t := Trend(s, periodYear, val);
    var gs := YearlySums(s, periodYear, val);
    MaxColumnIsPeriodMax(s, periodYear, val, i);
    var v := MaxColumn(s, periodYear, val)[i].value;
    TrendRowScaled(s, periodYear, val, t[i]);
    MeanAtMost(gs, PeriodOf, ValueOf, t[i].key, t[i].value, v);
  }

  /** Weeks and months are numbered from 1, so as written the first trend row
      receives NaN where the intended column holds a maximum. */
  lemma MaxColumnMisaligned<T(!new)>(s: seq<T>, periodYear: T -> (int, int), val: T -> real)
    requires s != []
    requires forall x :: x in s ==> periodYear(x).0 >= 1
    ensures |MaxColumnAsWritten(s, periodYear, val)| > 0
    ensures MaxColumnAsWritten(s, periodYear, val)[0].None?
    ensures MaxColumn(s, periodYear, val)[0].Some?
  {
    var gs := YearlySums(s, periodYear, val);
    assert s[0] in s;
    assert |gs| > 0;
    MaxColumnIsPeriodMax(s, periodYear, val, 0);
    var m := PeriodMaxima(s, periodYear, val);
    forall g | g in m ensures g.key != 0 {
      assert g.key in KeySet(gs, PeriodOf);
      var h :| h in gs && PeriodOf(h) == g.key;
      assert h.key in GroupKeys(gs);
      var x :| x in s && periodYear(x) == h.key;
    }
  }
}
