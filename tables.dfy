/** The table operations the dashboard's pipelines are built from: boolean-mask
    selection, group-by with a sum, a mean or a maximum, sorting by one column,
    the tail slice `[-n:]`, `nunique` and `mode`. A table is a sequence of rows;
    a grouped table is a sequence of `Group` rows, one per key. Keys and the
    aggregated column are given as functions, so one definition serves every
    column the dashboard groups by. */
module Tables {

  datatype Option<T> = None | Some(value: T)

  /** One row of a grouped table: the group's key and its aggregated value. */
  datatype Group<K> = Group(key: K, value: real)

  function ValueOf<K>(g: Group<K>): real { g.value }

  /** Sorting by `NegValueOf` ascending is sorting by value descending. */
  function NegValueOf<K>(g: Group<K>): real { -g.value }

  function Min(a: int, b: int): int { if a <= b then a else b }

  predicate Distinct<K(==,!new)>(ks: seq<K>) {
    forall i, j :: 0 <= i < j < |ks| ==> ks[i] != ks[j]
  }

  /** No key occurs on two rows of a grouped table. */
  predicate DistinctKeys<K(==,!new)>(r: seq<Group<K>>) {
    forall i, j :: 0 <= i < j < |r| ==> r[i].key != r[j].key
  }

  // ---------------------------------------------------------------------------
  // Sums and counts

  /** The sum of a column. */
  function Sum<T>(s: seq<T>, val: T -> real): real {
    if s == [] then 0.0 else val(s[0]) + Sum(s[1..], val)
  }

  /** The sum of a column over the rows whose key lies in `keys`. */
  function SumIn<T(!new), K(==,!new)>(s: seq<T>, key: T -> K, val: T -> real, keys: set<K>): real {
    if s == [] then 0.0
    else (if key(s[0]) in keys then val(s[0]) else 0.0) + SumIn(s[1..], key, val, keys)
  }

  /** The number of rows whose key lies in `keys`. */
  function CountIn<T(!new), K(==,!new)>(s: seq<T>, key: T -> K, keys: set<K>): nat {
    if s == [] then 0
    else (if key(s[0]) in keys then 1 else 0) + CountIn(s[1..], key, keys)
  }

  lemma {:induction false} SumInNone<T(!new), K(!new)>(s: seq<T>, key: T -> K, val: T -> real)
    ensures SumIn(s, key, val, {}) == 0.0
  {
    if s != [] {
      SumInNone(s[1..], key, val);
    }
  }

  /** Summing over two disjoint key sets is summing over each. */
  lemma {:induction false} SumInUnion<T(!new), K(!new)>(s: seq<T>, key: T -> K, val: T -> real, a: set<K>, b: set<K>)
    requires a !! b
    ensures SumIn(s, key, val, a + b) == SumIn(s, key, val, a) + SumIn(s, key, val, b)
  {
    if s != [] {
      SumInUnion(s[1..], key, val, a, b);
    }
  }

  /** A key set that holds every row's key sums the whole column. */
  lemma {:induction false} SumInAll<T(!new), K(!new)>(s: seq<T>, key: T -> K, val: T -> real, keys: set<K>)
    requires forall x :: x in s ==> key(x) in keys
    ensures SumIn(s, key, val, keys) == Sum(s, val)
  {
    if s != [] {
      assert s[0] in s;
      assert forall x :: x in s[1..] ==> x in s;
      SumInAll(s[1..], key, val, keys);
    }
  }

  /** A key occurs in a table exactly when it counts at least one row. */
  lemma {:induction false} CountInPositive<T(!new), K(!new)>(s: seq<T>, key: T -> K, k: K)
    ensures CountIn(s, key, {k}) > 0 <==> exists x :: x in s && key(x) == k
  {
    if s != [] {
      CountInPositive(s[1..], key, k);
      assert forall x :: x in s <==> x == s[0] || x in s[1..];
    }
  }

  /** `n` copies of `m` added up: `m * n` kept out of the solver's nonlinear
      arithmetic. */
  function Times(m: real, n: nat): real {
    if n == 0 then 0.0 else m + Times(m, n - 1)
  }

  lemma {:induction false} TimesIsProduct(m: real, n: nat)
    ensures Times(m, n) == m * (n as real)
  {
    if n > 0 {
      TimesIsProduct(m, n - 1);
      assert m * (n as real) == m * ((n - 1) as real) + m;
    }
  }

  /** An upper bound on every selected value bounds the sum by the bound times
      the count. */
  lemma {:induction false} SumInAtMost<T(!new), K(!new)>(s: seq<T>, key: T -> K, val: T -> real, keys: set<K>, m: real)
    requires forall x :: x in s && key(x) in keys ==> val(x) <= m
    ensures SumIn(s, key, val, keys) <= Times(m, CountIn(s, key, keys))
  {
    if s != [] {
      assert forall x :: x in s[1..] ==> x in s;
      SumInAtMost(s[1..], key, val, keys, m);
      var c := CountIn(s[1..], key, keys);
      if key(s[0]) in keys {
        assert s[0] in s;
        assert CountIn(s, key, keys) == c + 1;
      } else {
        assert CountIn(s, key, keys) == c;
      }
    }
  }

  /** A strict upper bound on every selected value, with a row selected,
      strictly bounds the sum. */
  lemma {:induction false} SumInBelow<T(!new), K(!new)>(s: seq<T>, key: T -> K, val: T -> real, keys: set<K>, m: real)
    requires forall x :: x in s && key(x) in keys ==> val(x) < m
    requires CountIn(s, key, keys) > 0
    ensures SumIn(s, key, val, keys) < Times(m, CountIn(s, key, keys))
  {
    assert forall x :: x in s[1..] ==> x in s;
    var c := CountIn(s[1..], key, keys);
    if key(s[0]) in keys {
      assert s[0] in s;
      SumInAtMost(s[1..], key, val, keys, m);
      assert CountIn(s, key, keys) == c + 1;
    } else {
      SumInBelow(s[1..], key, val, keys, m);
      assert CountIn(s, key, keys) == c;
    }
  }

  /** A lower bound on every selected value bounds the sum from below. */
  lemma {:induction false} SumInAtLeast<T(!new), K(!new)>(s: seq<T>, key: T -> K, val: T -> real, keys: set<K>, m: real)
    requires forall x :: x in s && key(x) in keys ==> val(x) >= m
    ensures SumIn(s, key, val, keys) >= Times(m, CountIn(s, key, keys))
  {
    if s != [] {
      assert forall x :: x in s[1..] ==> x in s;
      SumInAtLeast(s[1..], key, val, keys, m);
      var c := CountIn(s[1..], key, keys);
      if key(s[0]) in keys {
        assert s[0] in s;
        assert CountIn(s, key, keys) == c + 1;
      } else {
        assert CountIn(s, key, keys) == c;
      }
    }
  }

  /** A strict lower bound on every selected value, with a row selected,
      strictly bounds the sum from below. */
  lemma {:induction false} SumInAbove<T(!new), K(!new)>(s: seq<T>, key: T -> K, val: T -> real, keys: set<K>, m: real)
    requires forall x :: x in s && key(x) in keys ==> val(x) > m
    requires CountIn(s, key, keys) > 0
    ensures SumIn(s, key, val, keys) > Times(m, CountIn(s, key, keys))
  {
    assert forall x :: x in s[1..] ==> x in s;
    var c := CountIn(s[1..], key, keys);
    if key(s[0]) in keys {
      assert s[0] in s;
      SumInAtLeast(s[1..], key, val, keys, m);
      assert CountIn(s, key, keys) == c + 1;
    } else {
      SumInAbove(s[1..], key, val, keys, m);
      assert CountIn(s, key, keys) == c;
    }
  }

  // ---------------------------------------------------------------------------
  // Boolean-mask selection: `df[mask]`

  /** `r` holds each row of `s` satisfying `p` as often as `s` does, and no
      other row. */
  ghost predicate KeepsOccurrences<T(!new)>(s: seq<T>, p: T -> bool, r: seq<T>) {
    forall x :: multiset(r)[x] == if p(x) then multiset(s)[x] else 0
  }

  /** The rows satisfying `p`, in their original order: every such row is
      kept as often as it occurs, and no other row. */
  function Select<T(!new)>(s: seq<T>, p: T -> bool): (r: seq<T>)
    ensures KeepsOccurrences(s, p, r)
    ensures forall x :: x in r <==> x in s && p(x)
    ensures |r| <= |s|
  {
    if s == [] then []
    else
      assert s == [s[0]] + s[1..];
      if p(s[0]) then [s[0]] + Select(s[1..], p)
      else Select(s[1..], p)
  }

  /** Selecting from two tables one after the other is selecting from each
      and concatenating: the selection keeps the rows' order. */
  lemma {:induction false} SelectConcat<T(!new)>(a: seq<T>, b: seq<T>, p: T -> bool)
    ensures Select(a + b, p) == Select(a, p) + Select(b, p)
  {
    if a == [] {
      assert a + b == b;
    } else {
      var ab := a + b;
      assert ab[0] == a[0];
      assert ab[1..] == a[1..] + b;
      SelectConcat(a[1..], b, p);
      var rest := Select(a[1..], p) + Select(b, p);
      assert Select(ab[1..], p) == rest;
      if p(a[0]) {
        calc {
          Select(ab, p);
          [a[0]] + Select(ab[1..], p);
          [a[0]] + rest;
          ([a[0]] + Select(a[1..], p)) + Select(b, p);
        }
      } else {
        calc {
          Select(ab, p);
          Select(ab[1..], p);
          rest;
        }
      }
    }
  }

  /** The first row of a selection is the first row of the table that
      satisfies the mask (what `.iloc[0]` reads). */
  lemma {:induction false} SelectFirst<T(!new)>(s: seq<T>, p: T -> bool)
    requires Select(s, p) != []
    ensures exists i :: 0 <= i < |s| && s[i] == Select(s, p)[0] && p(s[i]) && forall j :: 0 <= j < i ==> !p(s[j])
  {
    if p(s[0]) {
      assert Select(s, p)[0] == s[0];
    } else {
      var t := s[1..];
      SelectFirst(t, p);
      var i :| 0 <= i < |t| && t[i] == Select(t, p)[0] && p(t[i]) && forall j :: 0 <= j < i ==> !p(t[j]);
      assert s[i + 1] == t[i];
      forall j | 0 <= j < i + 1 ensures !p(s[j]) {
        if j > 0 {
          assert s[j] == t[j - 1];
        }
      }
      assert s[i + 1] == Select(s, p)[0];
    }
  }

  /** The column sum of a selection is the keyed sum over the selected keys. */
  lemma {:induction false} SelectSum<T(!new), K(!new)>(s: seq<T>, p: T -> bool, key: T -> K, val: T -> real, keys: set<K>)
    requires forall x :: p(x) <==> key(x) in keys
    ensures Sum(Select(s, p), val) == SumIn(s, key, val, keys)
  {
    if s != [] {
      SelectSum(s[1..], p, key, val, keys);
      if p(s[0]) {
        assert ([s[0]] + Select(s[1..], p))[1..] == Select(s[1..], p);
      }
    }
  }

  /** Two keyed sums agree when they pick out the same rows. */
  lemma {:induction false} SumInSameRows<T(!new), K(!new), J(!new)>(s: seq<T>, key: T -> K, keys: set<K>, key2: T -> J, keys2: set<J>, val: T -> real)
    requires forall x :: x in s ==> (key(x) in keys <==> key2(x) in keys2)
    ensures SumIn(s, key, val, keys) == SumIn(s, key2, val, keys2)
  {
    if s != [] {
      assert forall x :: x in s[1..] ==> x in s;
      SumInSameRows(s[1..], key, keys, key2, keys2, val);
    }
  }

  /** A keyed sum over a selection is a keyed sum over the whole table, on a
      key that picks out the selected rows of the chosen groups. */
  lemma {:induction false} SelectSumIn<T(!new), K(!new), J(!new)>(s: seq<T>, p: T -> bool, key: T -> K, keys: set<K>, key2: T -> J, keys2: set<J>, val: T -> real)
    requires forall x :: x in s ==> (p(x) && key(x) in keys <==> key2(x) in keys2)
    ensures SumIn(Select(s, p), key, val, keys) == SumIn(s, key2, val, keys2)
  {
    if s != [] {
      assert forall x :: x in s[1..] ==> x in s;
      SelectSumIn(s[1..], p, key, keys, key2, keys2, val);
      if p(s[0]) {
        assert ([s[0]] + Select(s[1..], p))[1..] == Select(s[1..], p);
      }
    }
  }

  /** Leaving out rows whose value is zero keeps the column sum. */
  lemma {:induction false} SelectDropsZeros<T(!new)>(s: seq<T>, p: T -> bool, val: T -> real)
    requires forall x :: x in s && !p(x) ==> val(x) == 0.0
    ensures Sum(Select(s, p), val) == Sum(s, val)
  {
    if s != [] {
      assert forall x :: x in s[1..] ==> x in s;
      SelectDropsZeros(s[1..], p, val);
      if p(s[0]) {
        assert ([s[0]] + Select(s[1..], p))[1..] == Select(s[1..], p);
      }
    }
  }

  // ---------------------------------------------------------------------------
  // Distinct keys: the index of a group-by result

  /** The distinct keys of a table, in order of first appearance. */
  function Keys<T(!new), K(==,!new)>(s: seq<T>, key: T -> K): (r: seq<K>)
    ensures Distinct(r)
    ensures forall x :: x in s ==> key(x) in r
    ensures forall k :: k in r ==> exists x :: x in s && key(x) == k
  {
    if s == [] then []
    else
      var init, last := s[..|s| - 1], s[|s| - 1];
      var ks := Keys(init, key);
      assert forall x :: x in s ==> x in init || x == last;
      assert forall x :: x in init ==> x in s;
      if key(last) in ks then ks else ks + [key(last)]
  }

  /** A sequence without repetitions has as many elements as the set it holds. */
  lemma {:induction false} DistinctCard<K(!new)>(ks: seq<K>)
    requires Distinct(ks)
    ensures |set k | k in ks| == |ks|
  {
    if ks != [] {
      assert Distinct(ks[1..]) by {
        forall i, j | 0 <= i < j < |ks[1..]| ensures ks[1..][i] != ks[1..][j] {
          assert ks[1..][i] == ks[i + 1] && ks[1..][j] == ks[j + 1];
        }
      }
      DistinctCard(ks[1..]);
      assert (set k | k in ks) == {ks[0]} + (set k | k in ks[1..]);
      assert ks[0] !in (set k | k in ks[1..]);
    }
  }

  /** The values a column takes. */
  ghost function KeySet<T(!new), K(!new)>(s: seq<T>, key: T -> K): set<K> {
    set x | x in s :: key(x)
  }

  /** The keys of a grouped table. */
  function GroupKeys<K(==,!new)>(r: seq<Group<K>>): set<K> {
    set g | g in r :: g.key
  }

  /** `nunique`: the number of distinct values of a column. */
  function DistinctCount<T(!new), K(==,!new)>(s: seq<T>, key: T -> K): (n: nat)
    ensures n == |KeySet(s, key)|
    ensures n <= |s|
    ensures n == 0 <==> s == []
  {
    var ks := Keys(s, key);
    DistinctCard(ks);
    assert (set k | k in ks) == KeySet(s, key);
    KeysNoLonger(s, key);
    assert s != [] ==> key(s[0]) in ks;
    |ks|
  }

  /** The image of a set under `f`. */
  ghost function Image<A(!new), B(!new)>(xs: set<A>, f: A -> B): set<B> {
    set x | x in xs :: f(x)
  }

  /** Mapping a set never yields more elements than it had. */
  lemma {:induction false} ImageNoLarger<A(!new), B(!new)>(xs: set<A>, f: A -> B)
    ensures |Image(xs, f)| <= |xs|
  {
    if xs != {} {
      var a :| a in xs;
      var rest := xs - {a};
      ImageNoLarger(rest, f);
      assert Image(xs, f) == Image(rest, f) + {f(a)};
    }
  }

  /** An injective map keeps the number of elements. */
  lemma {:induction false} InjectiveImage<A(!new), B(!new)>(xs: set<A>, f: A -> B)
    requires forall a, b :: a in xs && b in xs && f(a) == f(b) ==> a == b
    ensures |Image(xs, f)| == |xs|
  {
    if xs != {} {
      var a :| a in xs;
      var rest := xs - {a};
      InjectiveImage(rest, f);
      assert Image(xs, f) == Image(rest, f) + {f(a)};
      assert f(a) !in Image(rest, f);
    }
  }

  /** A key that is a function of another never has more distinct values. */
  lemma CoarserKeyFewer<T(!new), K(!new), J(!new)>(s: seq<T>, fine: T -> K, coarse: T -> J, proj: K -> J)
    requires forall x :: coarse(x) == proj(fine(x))
    ensures |KeySet(s, coarse)| <= |KeySet(s, fine)|
  {
    assert KeySet(s, coarse) == Image(KeySet(s, fine), proj) by {
      forall j | j in KeySet(s, coarse) ensures j in Image(KeySet(s, fine), proj) {
        var x :| x in s && coarse(x) == j;
        assert fine(x) in KeySet(s, fine);
      }
    }
    ImageNoLarger(KeySet(s, fine), proj);
  }

  lemma {:induction false} KeysNoLonger<T(!new), K(!new)>(s: seq<T>, key: T -> K)
    ensures |Keys(s, key)| <= |s|
  {
    if s != [] {
      KeysNoLonger(s[..|s| - 1], key);
    }
  }

  // ---------------------------------------------------------------------------
  // Group-by with a sum: `df.groupby(key)[val].sum()`

  /** One row per key of `ks`, holding the sum of the rows with that key. */
  function Tally<T(!new), K(==,!new)>(s: seq<T>, key: T -> K, val: T -> real, ks: seq<K>): (r: seq<Group<K>>)
    ensures |r| == |ks|
    ensures forall i :: 0 <= i < |r| ==> r[i].key == ks[i]
    ensures forall g :: g in r ==> g.value == SumIn(s, key, val, {g.key})
  {
    if ks == [] then []
    else [Group(ks[0], SumIn(s, key, val, {ks[0]}))] + Tally(s, key, val, ks[1..])
  }

  /** The position of an element of a sequence. */
  function IndexOf<K(==,!new)>(ks: seq<K>, k: K): (i: nat)
    requires k in ks
    ensures i < |ks| && ks[i] == k
  {
    if ks[0] == k then 0 else 1 + IndexOf(ks[1..], k)
  }

  /** A table laid out along `Keys(s, key)` has one row per key of `s` and no
      other rows. */
  lemma RowsPerKey<T(!new), K(!new)>(s: seq<T>, key: T -> K, r: seq<Group<K>>)
    requires |r| == |Keys(s, key)|
    requires forall i :: 0 <= i < |r| ==> r[i].key == Keys(s, key)[i]
    ensures DistinctKeys(r)
    ensures |r| == DistinctCount(s, key)
    ensures GroupKeys(r) == KeySet(s, key)
  {
    var ks := Keys(s, key);
    forall x | x in s ensures key(x) in GroupKeys(r) {
      var i := IndexOf(ks, key(x));
      assert r[i] in r;
    }
    forall g | g in r ensures g.key in KeySet(s, key) {
      var i :| 0 <= i < |r| && r[i] == g;
      assert ks[i] in ks;
    }
  }

  /** Each distinct key gets exactly one row, and that row holds the sum of
      the column over the rows with that key. */
  function GroupSum<T(!new), K(==,!new)>(s: seq<T>, key: T -> K, val: T -> real): (r: seq<Group<K>>)
    ensures DistinctKeys(r)
    ensures |r| == DistinctCount(s, key)
    ensures GroupKeys(r) == KeySet(s, key)
    ensures forall g :: g in r ==> g.value == SumIn(s, key, val, {g.key})
  {
    var r := Tally(s, key, val, Keys(s, key));
    RowsPerKey(s, key, r);
    r
  }

  lemma DistinctTail<K(!new)>(ks: seq<K>)
    requires Distinct(ks) && ks != []
    ensures Distinct(ks[1..]) && ks[0] !in ks[1..]
  {
    forall i, j | 0 <= i < j < |ks[1..]| ensures ks[1..][i] != ks[1..][j] {
      assert ks[1..][i] == ks[i + 1] && ks[1..][j] == ks[j + 1];
    }
  }

  /** Summing the groups of the keys in `ks` is summing the rows with those keys. */
  lemma {:induction false} TallyTotal<T(!new), K(!new)>(s: seq<T>, key: T -> K, val: T -> real, ks: seq<K>)
    requires Distinct(ks)
    ensures Sum(Tally(s, key, val, ks), ValueOf) == SumIn(s, key, val, set k | k in ks)
  {
    if ks == [] {
      SumInNone(s, key, val);
      assert (set k | k in ks) == {};
    } else {
      var t := Tally(s, key, val, ks);
      var rest := set k | k in ks[1..];
      assert t[1..] == Tally(s, key, val, ks[1..]);
      assert Sum(t, ValueOf) == t[0].value + Sum(t[1..], ValueOf);
      DistinctTail(ks);
      TallyTotal(s, key, val, ks[1..]);
      assert ks == [ks[0]] + ks[1..];
      assert (set k | k in ks) == {ks[0]} + rest;
      SumInUnion(s, key, val, {ks[0]}, rest);
    }
  }

  /** The group totals partition the grand total. */
  lemma GroupSumPartitions<T(!new), K(!new)>(s: seq<T>, key: T -> K, val: T -> real)
    ensures Sum(GroupSum(s, key, val), ValueOf) == Sum(s, val)
  {
    var ks := Keys(s, key);
    TallyTotal(s, key, val, ks);
    SumInAll(s, key, val, set k | k in ks);
  }

  /** The keys of `ks` that `c` maps to `w`. */
  ghost function KeysMapping<K(!new), J(!new)>(ks: seq<K>, c: K -> J, w: J): set<K> {
    set k | k in ks && c(k) == w
  }

  /** Grouping the groups again by a coarser key `c` of their keys: the coarser
      group `w` sums and counts the finer groups whose key `c` maps to `w`.
      (`gkey` reads the coarser key off a group row.) */
  lemma {:induction false} TallyCoarsen<T(!new), K(!new), J(!new)>(s: seq<T>, key: T -> K, val: T -> real, ks: seq<K>, c: K -> J, gkey: Group<K> -> J, w: J)
    requires Distinct(ks)
    requires forall g :: gkey(g) == c(g.key)
    ensures SumIn(Tally(s, key, val, ks), gkey, ValueOf, {w}) == SumIn(s, key, val, KeysMapping(ks, c, w))
    ensures CountIn(Tally(s, key, val, ks), gkey, {w}) == |KeysMapping(ks, c, w)|
  {
    if ks == [] {
      SumInNone(s, key, val);
      assert KeysMapping(ks, c, w) == {};
    } else {
      var rest := KeysMapping(ks[1..], c, w);
      var t := Tally(s, key, val, ks);
      assert t[1..] == Tally(s, key, val, ks[1..]);
      DistinctTail(ks);
      TallyCoarsen(s, key, val, ks[1..], c, gkey, w);
      assert ks[0] !in rest;
      assert gkey(t[0]) == c(ks[0]);
      if c(ks[0]) == w {
        assert KeysMapping(ks, c, w) == {ks[0]} + rest;
        SumInUnion(s, key, val, {ks[0]}, rest);
      } else {
        assert KeysMapping(ks, c, w) == rest;
      }
    }
  }

  // ---------------------------------------------------------------------------
  // Group-by with a mean: `df.groupby(key)[val].mean()`

  lemma CountsPositive<T(!new), K(!new)>(s: seq<T>, key: T -> K, ks: seq<K>)
    requires forall k :: k in ks ==> exists x :: x in s && key(x) == k
    ensures forall i :: 0 <= i < |ks| ==> CountIn(s, key, {ks[i]}) > 0
  {
    forall i | 0 <= i < |ks| ensures CountIn(s, key, {ks[i]}) > 0 {
      assert ks[i] in ks;
      CountInPositive(s, key, ks[i]);
    }
  }

  /** One row per key of `ks`, holding the mean of the rows with that key. */
  function MeanTally<T(!new), K(==,!new)>(s: seq<T>, key: T -> K, val: T -> real, ks: seq<K>): (r: seq<Group<K>>)
    requires forall i :: 0 <= i < |ks| ==> CountIn(s, key, {ks[i]}) > 0
    ensures |r| == |ks|
    ensures forall i :: 0 <= i < |r| ==> r[i] == Group(ks[i], SumIn(s, key, val, {ks[i]}) / (CountIn(s, key, {ks[i]}) as real))
  {
    if ks == [] then []
    else [Group(ks[0], SumIn(s, key, val, {ks[0]}) / (CountIn(s, key, {ks[0]}) as real))] + MeanTally(s, key, val, ks[1..])
  }

  /** The mean times the count is the sum. */
  lemma MeanTimesCount(a: real, n: nat)
    requires n > 0
    ensures Times(a / (n as real), n) == a
  {
    TimesIsProduct(a / (n as real), n);
  }

  lemma MeanTallyScaled<T(!new), K(!new)>(s: seq<T>, key: T -> K, val: T -> real, ks: seq<K>)
    requires forall i :: 0 <= i < |ks| ==> CountIn(s, key, {ks[i]}) > 0
    ensures forall g :: g in MeanTally(s, key, val, ks) ==>
              CountIn(s, key, {g.key}) > 0 && Times(g.value, CountIn(s, key, {g.key})) == SumIn(s, key, val, {g.key})
  {
    var r := MeanTally(s, key, val, ks);
    forall g | g in r ensures CountIn(s, key, {g.key}) > 0 && Times(g.value, CountIn(s, key, {g.key})) == SumIn(s, key, val, {g.key}) {
      var i :| 0 <= i < |r| && r[i] == g;
      MeanTimesCount(SumIn(s, key, val, {ks[i]}), CountIn(s, key, {ks[i]}));
    }
  }

  /** Each distinct key gets exactly one row, holding the mean of the column
      over the rows with that key: the group's row count times the mean makes
      up the group's sum. */
  function GroupMean<T(!new), K(==,!new)>(s: seq<T>, key: T -> K, val: T -> real): (r: seq<Group<K>>)
    ensures DistinctKeys(r)
    ensures |r| == DistinctCount(s, key)
    ensures GroupKeys(r) == KeySet(s, key)
    ensures forall g :: g in r ==> CountIn(s, key, {g.key}) > 0 && Times(g.value, CountIn(s, key, {g.key})) == SumIn(s, key, val, {g.key})
  {
    var ks := Keys(s, key);
    CountsPositive(s, key, ks);
    var r := MeanTally(s, key, val, ks);
    RowsPerKey(s, key, r);
    MeanTallyScaled(s, key, val, ks);
    r
  }

  /** A value that, times the count of a key's rows, makes up their sum lies
      between the smallest and the largest of those rows' values. */
  lemma MeanBounds<T(!new), K(!new)>(s: seq<T>, key: T -> K, val: T -> real, k: K, v: real)
    requires CountIn(s, key, {k}) > 0 && Times(v, CountIn(s, key, {k})) == SumIn(s, key, val, {k})
    ensures exists x :: x in s && key(x) == k && val(x) <= v
    ensures exists x :: x in s && key(x) == k && val(x) >= v
  {
    if !exists x :: x in s && key(x) == k && val(x) <= v {
      assert forall x :: x in s && key(x) in {k} ==> val(x) > v;
      SumInAbove(s, key, val, {k}, v);
      assert false;
    }
    if !exists x :: x in s && key(x) == k && val(x) >= v {
      assert forall x :: x in s && key(x) in {k} ==> val(x) < v;
      SumInBelow(s, key, val, {k}, v);
      assert false;
    }
  }

  /** Times is monotone in its real argument. */
  lemma TimesCancel(a: real, b: real, n: nat)
    requires n > 0 && Times(a, n) <= Times(b, n)
    ensures a <= b
  {
    TimesIsProduct(a, n);
    TimesIsProduct(b, n);
  }

  /** A mean is no larger than any bound of the values it averages. */
  lemma MeanAtMost<T(!new), K(!new)>(s: seq<T>, key: T -> K, val: T -> real, k: K, mean: real, bound: real)
    requires CountIn(s, key, {k}) > 0 && Times(mean, CountIn(s, key, {k})) == SumIn(s, key, val, {k})
    requires forall x :: x in s && key(x) == k ==> val(x) <= bound
    ensures mean <= bound
  {
    SumInAtMost(s, key, val, {k}, bound);
    TimesCancel(mean, bound, CountIn(s, key, {k}));
  }

  /** A group's mean lies between the smallest and the largest value in the group. */
  lemma MeanWithinGroup<T(!new), K(!new)>(s: seq<T>, key: T -> K, val: T -> real, g: Group<K>)
    requires g in GroupMean(s, key, val)
    ensures exists x :: x in s && key(x) == g.key && val(x) <= g.value
    ensures exists x :: x in s && key(x) == g.key && val(x) >= g.value
  {
    MeanBounds(s, key, val, g.key, g.value);
  }

  // ---------------------------------------------------------------------------
  // Group-by with a maximum: `df.groupby(key)[val].max()`, and lookup by key

  /** The largest value of the column among the rows with key `k`. */
  function MaxIn<T(!new), K(==,!new)>(s: seq<T>, key: T -> K, val: T -> real, k: K): (m: real)
    requires CountIn(s, key, {k}) > 0
    ensures forall x :: x in s && key(x) == k ==> val(x) <= m
    ensures exists x :: x in s && key(x) == k && val(x) == m
  {
    assert forall x :: x in s <==> x == s[0] || x in s[1..];
    if key(s[0]) != k then MaxIn(s[1..], key, val, k)
    else if CountIn(s[1..], key, {k}) == 0 then
      CountInPositive(s[1..], key, k);
      val(s[0])
    else
      var m := MaxIn(s[1..], key, val, k);
      if val(s[0]) >= m then val(s[0]) else m
  }

  /** One row per key of `ks`, holding the largest value with that key. */
  function MaxTally<T(!new), K(==,!new)>(s: seq<T>, key: T -> K, val: T -> real, ks: seq<K>): (r: seq<Group<K>>)
    requires forall i :: 0 <= i < |ks| ==> CountIn(s, key, {ks[i]}) > 0
    ensures |r| == |ks|
    ensures forall i :: 0 <= i < |r| ==> r[i].key == ks[i]
    ensures forall g :: g in r ==> CountIn(s, key, {g.key}) > 0 && g.value == MaxIn(s, key, val, g.key)
  {
    if ks == [] then []
    else [Group(ks[0], MaxIn(s, key, val, ks[0]))] + MaxTally(s, key, val, ks[1..])
  }

  /** Each distinct key gets exactly one row, holding the largest value of the
      column among the rows with that key. */
  function GroupMax<T(!new), K(==,!new)>(s: seq<T>, key: T -> K, val: T -> real): (r: seq<Group<K>>)
    ensures DistinctKeys(r)
    ensures GroupKeys(r) == KeySet(s, key)
    ensures forall g :: g in r ==> exists x :: x in s && key(x) == g.key && val(x) == g.value
    ensures forall g, x :: g in r && x in s && key(x) == g.key ==> val(x) <= g.value
  {
    var ks := Keys(s, key);
    CountsPositive(s, key, ks);
    var r := MaxTally(s, key, val, ks);
    RowsPerKey(s, key, r);
    r
  }

  /** Looking up a key that occurs gives the largest value of its rows. */
  lemma LookupMax<T(!new), K(!new)>(s: seq<T>, key: T -> K, val: T -> real, k: K)
    requires k in KeySet(s, key)
    ensures Lookup(GroupMax(s, key, val), k).Some?
    ensures exists x :: x in s && key(x) == k && val(x) == Lookup(GroupMax(s, key, val), k).value
    ensures forall x :: x in s && key(x) == k ==> val(x) <= Lookup(GroupMax(s, key, val), k).value
  {
    var r := GroupMax(s, key, val);
    assert k in GroupKeys(r);
    assert Group(k, Lookup(r, k).value) in r;
  }

  /** The value a series indexed by key holds under label `k`; `None` (NaN
      after pandas' index alignment) when there is no such label. */
  function Lookup<K(==,!new)>(r: seq<Group<K>>, k: K): (v: Option<real>)
    ensures v.None? <==> forall g :: g in r ==> g.key != k
    ensures v.Some? ==> Group(k, v.value) in r
  {
    if r == [] then None
    else if r[0].key == k then Some(r[0].value)
    else
      assert forall g :: g in r <==> g == r[0] || g in r[1..];
      Lookup(r[1..], k)
  }

  // ---------------------------------------------------------------------------
  // Sorting by one column: `df.sort_values(by=col)`

  /** The column `f` never decreases along `s`. */
  predicate Ascending<T>(s: seq<T>, f: T -> real) {
    forall i, j :: 0 <= i < j < |s| ==> f(s[i]) <= f(s[j])
  }

  /** Putting an element no larger than any of an ascending sequence's in
      front keeps it ascending. */
  lemma ConsAscending<T>(a: T, t: seq<T>, f: T -> real)
    requires Ascending(t, f)
    requires forall y :: y in t ==> f(a) <= f(y)
    ensures Ascending([a] + t, f)
  {
    var r := [a] + t;
    forall i, j | 0 <= i < j < |r| ensures f(r[i]) <= f(r[j]) {
      assert r[j] == t[j - 1];
      if i > 0 {
        assert r[i] == t[i - 1];
      }
    }
  }

  /** The first element of an ascending sequence is its smallest. */
  lemma HeadSmallest<T>(s: seq<T>, f: T -> real)
    requires Ascending(s, f)
    ensures s != [] ==> forall y :: y in s ==> f(s[0]) <= f(y)
  {
    forall y | y in s ensures f(s[0]) <= f(y) {
      var j :| 0 <= j < |s| && s[j] == y;
      if j > 0 {
        assert f(s[0]) <= f(s[j]);
      }
    }
  }

  /** Inserts `x` into an ascending sequence, after the elements smaller than it. */
  function Insert<T(==,!new)>(x: T, s: seq<T>, f: T -> real): (r: seq<T>)
    requires Ascending(s, f)
    ensures Ascending(r, f)
    ensures multiset(r) == multiset(s) + multiset{x}
    ensures forall y :: y in r <==> y == x || y in s
    ensures |r| == |s| + 1
  {
    if s == [] || f(x) <= f(s[0]) then
      HeadSmallest(s, f);
      ConsAscending(x, s, f);
      [x] + s
    else
      var t := Insert(x, s[1..], f);
      assert s == [s[0]] + s[1..];
      HeadSmallest(s, f);
      ConsAscending(s[0], t, f);
      [s[0]] + t
  }

  /** A permutation of `s` that is ascending in the column `f`. */
  function SortBy<T(==,!new)>(s: seq<T>, f: T -> real): (r: seq<T>)
    ensures Ascending(r, f)
    ensures multiset(r) == multiset(s)
    ensures forall y :: y in r <==> y in s
    ensures |r| == |s|
  {
    if s == [] then []
    else
      assert s == [s[0]] + s[1..];
      Insert(s[0], SortBy(s[1..], f), f)
  }

  /** Putting a row with a new key in front keeps one row per key. */
  lemma ConsKeepsDistinctKeys<K(!new)>(x: Group<K>, s: seq<Group<K>>)
    requires DistinctKeys(s)
    requires forall g :: g in s ==> g.key != x.key
    ensures DistinctKeys([x] + s)
  {
    var r := [x] + s;
    forall i, j | 0 <= i < j < |r| ensures r[i].key != r[j].key {
      assert r[j] == s[j - 1] && s[j - 1] in s;
      if i > 0 {
        assert r[i] == s[i - 1];
      }
    }
  }

  /** The tail of an ascending table with one row per key is one too. */
  lemma TailAscendingDistinct<K(!new)>(s: seq<Group<K>>, f: Group<K> -> real)
    requires s != [] && Ascending(s, f) && DistinctKeys(s)
    ensures Ascending(s[1..], f) && DistinctKeys(s[1..])
    ensures forall g :: g in s[1..] ==> g.key != s[0].key
  {
    var tail := s[1..];
    forall i, j | 0 <= i < j < |tail| ensures f(tail[i]) <= f(tail[j]) && tail[i].key != tail[j].key {
      assert tail[i] == s[i + 1] && tail[j] == s[j + 1];
    }
    forall g | g in tail ensures g.key != s[0].key {
      var k :| 0 <= k < |tail| && tail[k] == g;
      assert s[k + 1] == g;
    }
  }

  lemma {:induction false} InsertKeepsDistinctKeys<K(!new)>(x: Group<K>, s: seq<Group<K>>, f: Group<K> -> real)
    requires Ascending(s, f) && DistinctKeys(s)
    requires forall g :: g in s ==> g.key != x.key
    ensures DistinctKeys(Insert(x, s, f))
  {
    if s == [] || f(x) <= f(s[0]) {
      ConsKeepsDistinctKeys(x, s);
    } else {
      var tail := s[1..];
      TailAscendingDistinct(s, f);
      assert forall g :: g in tail ==> g in s;
      InsertKeepsDistinctKeys(x, tail, f);
      var t := Insert(x, tail, f);
      assert s[0] in s;
      ConsKeepsDistinctKeys(s[0], t);
    }
  }

  /** Sorting a grouped table keeps one row per key. */
  lemma {:induction false} SortKeepsDistinctKeys<K(!new)>(s: seq<Group<K>>, f: Group<K> -> real)
    requires DistinctKeys(s)
    ensures DistinctKeys(SortBy(s, f))
  {
    if s != [] {
      SortKeepsDistinctKeys(s[1..], f);
      forall g | g in SortBy(s[1..], f) ensures g.key != s[0].key {
        var j :| 1 <= j < |s| && s[j] == g;
      }
      InsertKeepsDistinctKeys(s[0], SortBy(s[1..], f), f);
    }
  }

  // ---------------------------------------------------------------------------
  // The tail slice `[-n:]`

  /** Python's `s[-n:]`: the last `n` rows, all rows when there are fewer, and
      also all rows when `n` is 0 (because `-0` is `0`). It never pads. */
  function TailSlice<T>(s: seq<T>, n: nat): (r: seq<T>)
    ensures |r| == if n == 0 then |s| else Min(n, |s|)
    ensures r == s[|s| - |r|..]
  {
    if n == 0 || n >= |s| then s else s[|s| - n..]
  }

  /** Of an ascending sequence, the tail slice keeps the largest elements, in
      ascending order. */
  lemma TailSliceLargest<T>(s: seq<T>, f: T -> real, n: nat)
    requires Ascending(s, f)
    ensures Ascending(TailSlice(s, n), f)
    ensures forall i, j :: 0 <= i < |s| - |TailSlice(s, n)| && 0 <= j < |TailSlice(s, n)| ==> f(s[i]) <= f(TailSlice(s, n)[j])
  {
    var r := TailSlice(s, n);
    forall i, j | 0 <= i < |s| - |r| && 0 <= j < |r| ensures f(s[i]) <= f(r[j]) {
      assert r[j] == s[|s| - |r| + j];
    }
  }

  // ---------------------------------------------------------------------------
  // The recurring pipeline: group-by-sum, sort ascending, take the tail

  /** Group totals sorted ascending by total. */
  function SortedTotals<T(!new), K(==,!new)>(s: seq<T>, key: T -> K, val: T -> real): (r: seq<Group<K>>)
    ensures Ascending(r, ValueOf)
    ensures DistinctKeys(r)
    ensures |r| == DistinctCount(s, key)
    ensures GroupKeys(r) == KeySet(s, key)
    ensures forall g :: g in r ==> g.value == SumIn(s, key, val, {g.key})
  {
    var groups := GroupSum(s, key, val);
    SortKeepsDistinctKeys(groups, ValueOf);
    SortBy(groups, ValueOf)
  }

  lemma TailSliceKeepsDistinctKeys<K(!new)>(s: seq<Group<K>>, n: nat)
    requires DistinctKeys(s)
    ensures DistinctKeys(TailSlice(s, n))
    ensures forall g :: g in TailSlice(s, n) ==> g in s
  {
    var r := TailSlice(s, n);
    forall i, j | 0 <= i < j < |r| ensures r[i].key != r[j].key {
      assert r[i] == s[|s| - |r| + i] && r[j] == s[|s| - |r| + j];
    }
    forall g | g in r ensures g in s {
      var i :| 0 <= i < |r| && r[i] == g;
      assert r[i] == s[|s| - |r| + i];
    }
  }

  /** A row of an ascending grouped table whose key the tail slice left out
      is no larger than any row kept. */
  lemma TailSliceDropsSmaller<K(!new)>(sorted: seq<Group<K>>, n: nat, h: Group<K>)
    requires Ascending(sorted, ValueOf)
    requires h in sorted
    requires forall g :: g in TailSlice(sorted, n) ==> g.key != h.key
    ensures forall g :: g in TailSlice(sorted, n) ==> h.value <= g.value
  {
    var r := TailSlice(sorted, n);
    var i :| 0 <= i < |sorted| && sorted[i] == h;
    assert i < |sorted| - |r|;
    forall g | g in r ensures h.value <= g.value {
      var j :| 0 <= j < |r| && r[j] == g;
      assert r[j] == sorted[|sorted| - |r| + j];
      assert ValueOf(sorted[i]) <= ValueOf(sorted[|sorted| - |r| + j]);
    }
  }

  /** `groupby(key).sum().sort_values(ascending=True)[-n:]`: for positive `n`,
      the `n` keys with the largest totals (all keys if there are fewer), in
      ascending order of total; every key left out totals no more than any key
      kept. */
  function TopN<T(!new), K(==,!new)>(s: seq<T>, key: T -> K, val: T -> real, n: nat): (r: seq<Group<K>>)
    ensures |r| == if n == 0 then DistinctCount(s, key) else Min(n, DistinctCount(s, key))
    ensures Ascending(r, ValueOf)
    ensures DistinctKeys(r)
    ensures GroupKeys(r) <= KeySet(s, key)
    ensures forall g :: g in r ==> g.value == SumIn(s, key, val, {g.key})
    ensures forall k, g :: k in KeySet(s, key) && k !in GroupKeys(r) && g in r ==> SumIn(s, key, val, {k}) <= g.value
  {
    var sorted := SortedTotals(s, key, val);
    TailSliceLargest(sorted, ValueOf, n);
    TailSliceKeepsDistinctKeys(sorted, n);
    forall k | k in KeySet(s, key) && k !in GroupKeys(TailSlice(sorted, n))
      ensures forall g :: g in TailSlice(sorted, n) ==> SumIn(s, key, val, {k}) <= g.value
    {
      assert k in GroupKeys(sorted);
      var h :| h in sorted && h.key == k;
      TailSliceDropsSmaller(sorted, n, h);
    }
    TailSlice(sorted, n)
  }

  // ---------------------------------------------------------------------------
  // The best group, and positions in a descending ranking

  /** The last row of the ascending totals (`.iloc[-1]`) has the largest total. */
  lemma LastIsLargest<T(!new), K(!new)>(s: seq<T>, key: T -> K, val: T -> real)
    requires s != []
    ensures SortedTotals(s, key, val) != []
    ensures Last(SortedTotals(s, key, val)).key in KeySet(s, key)
    ensures forall k :: k in KeySet(s, key) ==> SumIn(s, key, val, {k}) <= SumIn(s, key, val, {Last(SortedTotals(s, key, val)).key})
  {
    var r := SortedTotals(s, key, val);
    assert key(s[0]) in GroupKeys(r);
    assert Last(r) in r;
    forall k | k in KeySet(s, key) ensures SumIn(s, key, val, {k}) <= SumIn(s, key, val, {Last(r).key}) {
      assert k in GroupKeys(r);
      var g :| g in r && g.key == k;
      LastOfAscending(r, g);
    }
  }

  /** No group of an ascending grouped table exceeds its last one. */
  lemma LastOfAscending<K>(r: seq<Group<K>>, g: Group<K>)
    requires Ascending(r, ValueOf) && g in r
    ensures g.value <= Last(r).value
  {
    var i :| 0 <= i < |r| && r[i] == g;
    if i < |r| - 1 {
      assert ValueOf(r[i]) <= ValueOf(r[|r| - 1]);
    }
  }

  function Last<T>(s: seq<T>): T
    requires s != []
  {
    s[|s| - 1]
  }

  /** Values never increase along a grouped table. */
  predicate Descending<K>(r: seq<Group<K>>) {
    forall i, j :: 0 <= i <= j < |r| ==> r[i].value >= r[j].value
  }

  /** Sorting grouped rows by `NegValueOf` orders them by decreasing value. */
  lemma SortDescending<K(!new)>(groups: seq<Group<K>>)
    requires DistinctKeys(groups)
    ensures DistinctKeys(SortBy(groups, NegValueOf))
    ensures Descending(SortBy(groups, NegValueOf))
  {
    var r := SortBy(groups, NegValueOf);
    SortKeepsDistinctKeys(groups, NegValueOf);
    forall i, j | 0 <= i <= j < |r| ensures r[i].value >= r[j].value {
      if i < j {
        assert NegValueOf(r[i]) <= NegValueOf(r[j]);
      }
    }
  }

  /** `groupby(key).sum().sort_values(ascending=False)`: one row per key,
      holding its total, by decreasing total. */
  function DescendingTotals<T(!new), K(==,!new)>(s: seq<T>, key: T -> K, val: T -> real): (r: seq<Group<K>>)
    ensures DistinctKeys(r)
    ensures |r| == DistinctCount(s, key)
    ensures GroupKeys(r) == KeySet(s, key)
    ensures forall g :: g in r ==> g.value == SumIn(s, key, val, {g.key})
    ensures Descending(r)
  {
    var groups := GroupSum(s, key, val);
    SortDescending(groups);
    SortBy(groups, NegValueOf)
  }

  /** The first row of the descending totals (`.iloc[0]`) has the largest total. */
  lemma FirstIsLargest<T(!new), K(!new)>(s: seq<T>, key: T -> K, val: T -> real)
    requires s != []
    ensures DescendingTotals(s, key, val) != []
    ensures DescendingTotals(s, key, val)[0].key in KeySet(s, key)
    ensures forall k :: k in KeySet(s, key) ==> SumIn(s, key, val, {k}) <= SumIn(s, key, val, {DescendingTotals(s, key, val)[0].key})
  {
    var r := DescendingTotals(s, key, val);
    assert key(s[0]) in GroupKeys(r);
    assert r[0] in r;
    forall k | k in KeySet(s, key) ensures SumIn(s, key, val, {k}) <= SumIn(s, key, val, {r[0].key}) {
      assert k in GroupKeys(r);
      var g :| g in r && g.key == k;
      FirstOfDescending(r, g);
    }
  }

  /** No group of a descending grouped table exceeds its first one. */
  lemma FirstOfDescending<K>(r: seq<Group<K>>, g: Group<K>)
    requires Descending(r)
    requires g in r
    ensures g.value <= r[0].value
  {
    var i :| 0 <= i < |r| && r[i] == g;
  }

  /** The ascending totals sorted again, now by decreasing total, as the
      product ranking is: one row per key, by decreasing total. */
  function RankedTotals<T(!new), K(==,!new)>(s: seq<T>, key: T -> K, val: T -> real): (r: seq<Group<K>>)
    ensures DistinctKeys(r)
    ensures |r| == DistinctCount(s, key)
    ensures GroupKeys(r) == KeySet(s, key)
    ensures forall g :: g in r ==> g.value == SumIn(s, key, val, {g.key})
    ensures Descending(r)
  {
    var ascending := SortedTotals(s, key, val);
    SortDescending(ascending);
    SortBy(ascending, NegValueOf)
  }

  /** One plus the position of the first row with key `k` (`.index[0] + 1` of
      the rows with that key); none when no row has it. */
  function RankOf<K(==,!new)>(r: seq<Group<K>>, k: K): (n: Option<nat>)
    ensures n.None? <==> k !in GroupKeys(r)
    ensures n.Some? ==> 1 <= n.value <= |r| && r[n.value - 1].key == k
    ensures n.Some? ==> forall j :: 0 <= j < n.value - 1 ==> r[j].key != k
  {
    if r == [] then None
    else if r[0].key == k then
      assert r[0] in r;
      Some(1)
    else
      assert forall g :: g in r <==> g == r[0] || g in r[1..];
      match RankOf(r[1..], k)
      case None => None
      case Some(n) => Some(n + 1)
  }

  /** A rank exists exactly for the keys that occur, and lies between 1 and
      the number of distinct keys. */
  lemma RankBounds<T(!new), K(!new)>(s: seq<T>, key: T -> K, val: T -> real, k: K)
    ensures RankOf(RankedTotals(s, key, val), k).Some? <==> k in KeySet(s, key)
    ensures RankOf(RankedTotals(s, key, val), k).Some? ==> 1 <= RankOf(RankedTotals(s, key, val), k).value <= DistinctCount(s, key)
  {
  }

  /** A strictly larger total gets a strictly smaller rank. */
  lemma RankOrder<T(!new), K(!new)>(s: seq<T>, key: T -> K, val: T -> real, a: K, b: K)
    requires a in KeySet(s, key) && b in KeySet(s, key)
    requires SumIn(s, key, val, {a}) > SumIn(s, key, val, {b})
    ensures RankOf(RankedTotals(s, key, val), a).Some? && RankOf(RankedTotals(s, key, val), b).Some?
    ensures RankOf(RankedTotals(s, key, val), a).value < RankOf(RankedTotals(s, key, val), b).value
  {
    var r := RankedTotals(s, key, val);
    var ia := RankOf(r, a).value - 1;
    var ib := RankOf(r, b).value - 1;
    assert r[ia] in r && r[ib] in r;
  }

  /** The key ranked first has the largest total. */
  lemma RankOneIsLargest<T(!new), K(!new)>(s: seq<T>, key: T -> K, val: T -> real, a: K)
    requires RankOf(RankedTotals(s, key, val), a) == Some(1)
    ensures forall k :: k in KeySet(s, key) ==> SumIn(s, key, val, {k}) <= SumIn(s, key, val, {a})
  {
    var r := RankedTotals(s, key, val);
    assert r[0] in r;
    forall k | k in KeySet(s, key) ensures SumIn(s, key, val, {k}) <= SumIn(s, key, val, {a}) {
      assert k in GroupKeys(r);
      var i :| 0 <= i < |r| && r[i].key == k;
    }
  }

  // ---------------------------------------------------------------------------
  // `Series.mode()`: the most frequent values

  /** The largest count among the keys in `ks`. */
  function MaxCount<T(!new), K(==,!new)>(s: seq<T>, key: T -> K, ks: seq<K>): (m: nat)
    ensures forall k :: k in ks ==> CountIn(s, key, {k}) <= m
    ensures ks != [] ==> exists k :: k in ks && CountIn(s, key, {k}) == m
  {
    if ks == [] then 0
    else
      var rest := MaxCount(s, key, ks[1..]);
      assert forall k :: k in ks <==> k == ks[0] || k in ks[1..];
      if CountIn(s, key, {ks[0]}) >= rest then CountIn(s, key, {ks[0]}) else rest
  }

  /** The keys of `ks` that count exactly `m` rows. */
  function KeysCounting<T(!new), K(==,!new)>(s: seq<T>, key: T -> K, ks: seq<K>, m: nat): (r: seq<K>)
    ensures forall k :: k in r <==> k in ks && CountIn(s, key, {k}) == m
  {
    if ks == [] then []
    else
      assert forall k :: k in ks <==> k == ks[0] || k in ks[1..];
      (if CountIn(s, key, {ks[0]}) == m then [ks[0]] else []) + KeysCounting(s, key, ks[1..], m)
  }

  /** The values of maximal frequency (`Series.mode()`): there is one exactly
      when the table is not empty, and each is a value of the column. */
  function Modes<T(!new), K(==,!new)>(s: seq<T>, key: T -> K): (r: seq<K>)
    ensures r == [] <==> s == []
    ensures forall m :: m in r ==> m in KeySet(s, key)
  {
    var ks := Keys(s, key);
    assert s != [] ==> key(s[0]) in ks;
    KeysCounting(s, key, ks, MaxCount(s, key, ks))
  }

  /** No row's value occurs more often than the value of row `x`. */
  ghost predicate MostCommonIn<T(!new), K(!new)>(s: seq<T>, key: T -> K, x: T) {
    forall y :: y in s ==> CountIn(s, key, {key(y)}) <= CountIn(s, key, {key(x)})
  }

  /** Each listed value occurs at least as often as any other value, and
      every value of maximal frequency is listed. */
  lemma ModesAreMostCommon<T(!new), K(!new)>(s: seq<T>, key: T -> K)
    ensures forall m, x :: m in Modes(s, key) && x in s ==> CountIn(s, key, {key(x)}) <= CountIn(s, key, {m})
    ensures forall x :: x in s && MostCommonIn(s, key, x) ==> key(x) in Modes(s, key)
  {
    var ks := Keys(s, key);
    var m := MaxCount(s, key, ks);
    assert forall x :: x in s && MostCommonIn(s, key, x) ==> CountIn(s, key, {key(x)}) == m;
  }
}
