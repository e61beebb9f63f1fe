/** Boolean masks `df[df[col] == c]` and what grouping the selected rows
    means for the whole table: grouping the rows of one value `c` of `col` by
    `key` is grouping the whole table by the pair `(col, key)` and keeping the
    pairs that start with `c`. */
module Masks {
  import opened Tables

  /** The mask `df[col] == c`. */
  function At<T, C(==)>(col: T -> C, c: C): T -> bool {
    (x: T) => col(x) == c
  }

  /** The two-column key of `groupby([col, key])`. */
  function Pair<T, C, K>(col: T -> C, key: T -> K): T -> (C, K) {
    (x: T) => (col(x), key(x))
  }

  /** The selection is empty exactly when no row has the value. */
  lemma MaskNonEmpty<T(!new), C(!new)>(s: seq<T>, col: T -> C, c: C)
    ensures Select(s, At(col, c)) != [] <==> c in KeySet(s, col)
  {
    if c in KeySet(s, col) {
      var x :| x in s && col(x) == c;
      assert x in Select(s, At(col, c));
    }
  }

  /** The selection's total is the value's group total. */
  lemma MaskTotal<T(!new), C(!new)>(s: seq<T>, col: T -> C, c: C, val: T -> real)
    ensures Sum(Select(s, At(col, c)), val) == SumIn(s, col, val, {c})
  {
    SelectSum(s, At(col, c), col, val, {c});
  }

  /** A group of the selection is the pair group of the whole table. */
  lemma MaskGroupSum<T(!new), C(!new), K(!new)>(s: seq<T>, col: T -> C, c: C, key: T -> K, val: T -> real, k: K)
    ensures SumIn(Select(s, At(col, c)), key, val, {k}) == SumIn(s, Pair(col, key), val, {(c, k)})
  {
    SelectSumIn(s, At(col, c), key, {k}, Pair(col, key), {(c, k)}, val);
  }

  /** The selection's keys are the second halves of the pairs starting with `c`. */
  lemma MaskKeys<T(!new), C(!new), K(!new)>(s: seq<T>, col: T -> C, c: C, key: T -> K, k: K)
    ensures k in KeySet(Select(s, At(col, c)), key) <==> (c, k) in KeySet(s, Pair(col, key))
  {
    var sel := Select(s, At(col, c));
    if k in KeySet(sel, key) {
      var x :| x in sel && key(x) == k;
      assert Pair(col, key)(x) == (c, k);
    }
    if (c, k) in KeySet(s, Pair(col, key)) {
      var x :| x in s && Pair(col, key)(x) == (c, k);
      assert x in sel;
    }
  }

  /** Every group of any of the selection's grouped tables is the pair group. */
  lemma MaskGroups<T(!new), C(!new), K(!new)>(s: seq<T>, col: T -> C, c: C, key: T -> K, val: T -> real, r: seq<Group<K>>)
    requires forall g :: g in r ==> g.value == SumIn(Select(s, At(col, c)), key, val, {g.key})
    ensures forall g :: g in r ==> g.value == SumIn(s, Pair(col, key), val, {(c, g.key)})
  {
    forall g | g in r ensures g.value == SumIn(s, Pair(col, key), val, {(c, g.key)}) {
      MaskGroupSum(s, col, c, key, val, g.key);
    }
  }

  /** The selection's top `n` (for positive `n`) in terms of the whole table:
      `min(n, k)` bars for the `k` keys the selection has, ascending, one per
      key, each a second half of a pair starting with `c`; a key of the
      selection that is not shown totals no more than any shown bar. */
  lemma MaskTopN<T(!new), C(!new), K(!new)>(s: seq<T>, col: T -> C, c: C, key: T -> K, val: T -> real, n: nat)
    requires n > 0
    ensures |TopN(Select(s, At(col, c)), key, val, n)| == Min(n, |KeySet(Select(s, At(col, c)), key)|)
    ensures Ascending(TopN(Select(s, At(col, c)), key, val, n), ValueOf)
    ensures DistinctKeys(TopN(Select(s, At(col, c)), key, val, n))
    ensures forall g :: g in TopN(Select(s, At(col, c)), key, val, n) ==> (c, g.key) in KeySet(s, Pair(col, key))
    ensures forall k, g :: (c, k) in KeySet(s, Pair(col, key)) && k !in GroupKeys(TopN(Select(s, At(col, c)), key, val, n)) && g in TopN(Select(s, At(col, c)), key, val, n) ==>
              SumIn(s, Pair(col, key), val, {(c, k)}) <= g.value
  {
    var sel := Select(s, At(col, c));
    var r := TopN(sel, key, val, n);
    forall g | g in r ensures (c, g.key) in KeySet(s, Pair(col, key)) {
      MaskKeys(s, col, c, key, g.key);
    }
    forall k, g | (c, k) in KeySet(s, Pair(col, key)) && k !in GroupKeys(r) && g in r
      ensures SumIn(s, Pair(col, key), val, {(c, k)}) <= g.value
    {
      MaskKeys(s, col, c, key, k);
      MaskGroupSum(s, col, c, key, val, k);
    }
  }

  /** A key of the selection whose total bounds every other key's total is,
      in the whole table, the best second half of a pair starting with `c`. */
  lemma MaskBest<T(!new), C(!new), K(!new)>(s: seq<T>, col: T -> C, c: C, key: T -> K, val: T -> real, best: K)
    requires best in KeySet(Select(s, At(col, c)), key)
    requires forall k :: k in KeySet(Select(s, At(col, c)), key) ==>
               SumIn(Select(s, At(col, c)), key, val, {k}) <= SumIn(Select(s, At(col, c)), key, val, {best})
    ensures (c, best) in KeySet(s, Pair(col, key))
    ensures forall x :: x in s && col(x) == c ==>
              SumIn(s, Pair(col, key), val, {(c, key(x))}) <= SumIn(s, Pair(col, key), val, {(c, best)})
  {
    MaskKeys(s, col, c, key, best);
    MaskGroupSum(s, col, c, key, val, best);
    forall x | x in s && col(x) == c
      ensures SumIn(s, Pair(col, key), val, {(c, key(x))}) <= SumIn(s, Pair(col, key), val, {(c, best)})
    {
      assert x in Select(s, At(col, c));
      MaskGroupSum(s, col, c, key, val, key(x));
    }
  }

  /** The first group of the selection's descending totals (`.index[0]` after
      a descending sort) is its best key. */
  lemma MaskBestDescending<T(!new), C(!new), K(!new)>(s: seq<T>, col: T -> C, c: C, key: T -> K, val: T -> real)
    requires c in KeySet(s, col)
    ensures DescendingTotals(Select(s, At(col, c)), key, val) != []
    ensures (c, DescendingTotals(Select(s, At(col, c)), key, val)[0].key) in KeySet(s, Pair(col, key))
    ensures forall x :: x in s && col(x) == c ==>
              SumIn(s, Pair(col, key), val, {(c, key(x))}) <=
              SumIn(s, Pair(col, key), val, {(c, DescendingTotals(Select(s, At(col, c)), key, val)[0].key)})
  {
    MaskNonEmpty(s, col, c);
    FirstIsLargest(Select(s, At(col, c)), key, val);
    MaskBest(s, col, c, key, val, DescendingTotals(Select(s, At(col, c)), key, val)[0].key);
  }

  /** The last group of the selection's ascending totals (`.iloc[-1]` after an
      ascending sort) is its best key. */
  lemma MaskBestAscending<T(!new), C(!new), K(!new)>(s: seq<T>, col: T -> C, c: C, key: T -> K, val: T -> real)
    requires c in KeySet(s, col)
    ensures SortedTotals(Select(s, At(col, c)), key, val) != []
    ensures (c, Last(SortedTotals(Select(s, At(col, c)), key, val)).key) in KeySet(s, Pair(col, key))
    ensures forall x :: x in s && col(x) == c ==>
              SumIn(s, Pair(col, key), val, {(c, key(x))}) <=
              SumIn(s, Pair(col, key), val, {(c, Last(SortedTotals(Select(s, At(col, c)), key, val)).key)})
  {
    MaskNonEmpty(s, col, c);
    LastIsLargest(Select(s, At(col, c)), key, val);
    MaskBest(s, col, c, key, val, Last(SortedTotals(Select(s, At(col, c)), key, val)).key);
  }

  /** Keys of the rows meeting a second condition within the selection. */
  lemma MaskWhereKeys<T(!new), C(!new), K(!new)>(s: seq<T>, col: T -> C, c: C, q: T -> bool, key: T -> K, k: K)
    ensures k in KeySet(Select(Select(s, At(col, c)), q), key) <==> exists x :: x in s && col(x) == c && q(x) && key(x) == k
  {
    var sel := Select(Select(s, At(col, c)), q);
    if exists x :: x in s && col(x) == c && q(x) && key(x) == k {
      var x :| x in s && col(x) == c && q(x) && key(x) == k;
      assert x in sel;
    }
  }

  /** The modes of a column within the selection: each occurs among the
      selected rows at least as often as any other value there, and every
      value of that frequency is listed. */
  lemma MaskModes<T(!new), C(!new), K(!new)>(s: seq<T>, col: T -> C, c: C, key: T -> K)
    ensures c in KeySet(s, col) ==> Modes(Select(s, At(col, c)), key) != []
    ensures forall m, x :: m in Modes(Select(s, At(col, c)), key) && x in s && col(x) == c ==>
              CountIn(Select(s, At(col, c)), key, {key(x)}) <= CountIn(Select(s, At(col, c)), key, {m})
    ensures forall x :: x in s && col(x) == c && MostCommonIn(Select(s, At(col, c)), key, x) ==> key(x) in Modes(Select(s, At(col, c)), key)
  {
    MaskNonEmpty(s, col, c);
    ModesAreMostCommon(Select(s, At(col, c)), key);
  }
}
