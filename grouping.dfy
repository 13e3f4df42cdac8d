/**
 * The pandas group-by semantics both tabular parsers rely on
 * (src/processors.py:38-42, 105-107): groups keyed by club name in ascending
 * key order, per-group row counts and selections, and `mean` skipping
 * missing values.
 */
module Grouping {
  import opened Wrappers

  // ---------------------------------------------------------------------
  // Key order: Python's `str <`
  // ---------------------------------------------------------------------

  /** Python's `str <`: code-point lexicographic order, a proper prefix first. */
  predicate Less(a: string, b: string)
    decreases |a|
  {
    if a == [] then b != []
    else if b == [] then false
    else if a[0] == b[0] then Less(a[1..], b[1..])
    else a[0] < b[0]
  }

  lemma {:induction false} LessIrreflexive(a: string)
    ensures !Less(a, a)
    decreases |a|
  {
    if a != [] {
      LessIrreflexive(a[1..]);
    }
  }

  lemma {:induction false} LessTransitive(a: string, b: string, c: string)
    requires Less(a, b) && Less(b, c)
    ensures Less(a, c)
    decreases |a|
  {
    if a != [] && a[0] == b[0] && b[0] == c[0] {
      LessTransitive(a[1..], b[1..], c[1..]);
    }
  }

  lemma {:induction false} LessTotal(a: string, b: string)
    ensures a == b || Less(a, b) || Less(b, a)
    decreases |a|
  {
    if a != [] && b != [] && a[0] == b[0] {
      LessTotal(a[1..], b[1..]);
      if a[1..] == b[1..] {
        assert a == [a[0]] + a[1..] && b == [b[0]] + b[1..];
      }
    }
  }

  lemma {:induction false} LessAsymmetric(a: string, b: string)
    requires Less(a, b)
    ensures !Less(b, a)
    decreases |a|
  {
    if a != [] && a[0] == b[0] {
      LessAsymmetric(a[1..], b[1..]);
    }
  }

  predicate Ascending(keys: seq<string>) {
    forall i, j :: 0 <= i < j < |keys| ==> Less(keys[i], keys[j])
  }

  predicate Distinct(keys: seq<string>) {
    forall i, j :: 0 <= i < j < |keys| ==> keys[i] != keys[j]
  }

  lemma AscendingDistinct(keys: seq<string>)
    requires Ascending(keys)
    ensures Distinct(keys)
  {
    forall i, j | 0 <= i < j < |keys|
      ensures keys[i] != keys[j]
    {
      LessIrreflexive(keys[i]);
    }
  }

  // ---------------------------------------------------------------------
  // Groups
  // ---------------------------------------------------------------------

  /** Adds `k` to an ascending key list, once. */
  function Insert(keys: seq<string>, k: string): (r: seq<string>)
    requires Ascending(keys)
    ensures Ascending(r)
    ensures forall x :: x in r <==> x in keys || x == k
    decreases |keys|
  {
    if keys == [] then [k]
    else if k == keys[0] then keys
    else if Less(k, keys[0]) then
      InsertFrontAscending(keys, k);
      [k] + keys
    else
      LessTotal(k, keys[0]);
      var rest := Insert(keys[1..], k);
      InsertBehindAscending(keys, k, rest);
      [keys[0]] + rest
  }

  lemma InsertFrontAscending(keys: seq<string>, k: string)
    requires Ascending(keys) && keys != [] && Less(k, keys[0])
    ensures Ascending([k] + keys)
  {
    var r := [k] + keys;
    forall i, j | 0 <= i < j < |r|
      ensures Less(r[i], r[j])
    {
      if i == 0 && j > 1 {
        LessTransitive(k, keys[0], keys[j - 1]);
      }
    }
  }

  lemma InsertBehindAscending(keys: seq<string>, k: string, rest: seq<string>)
    requires Ascending(keys) && keys != [] && Less(keys[0], k)
    requires Ascending(rest)
    requires forall x :: x in rest <==> x in keys[1..] || x == k
    ensures Ascending([keys[0]] + rest)
  {
    var r := [keys[0]] + rest;
    forall i, j | 0 <= i < j < |r|
      ensures Less(r[i], r[j])
    {
      if i == 0 {
        assert r[j] in rest;
        if r[j] != k {
          var m :| 0 <= m < |keys[1..]| && keys[1..][m] == r[j];
          assert keys[m + 1] == r[j];
        }
      }
    }
  }

  /**
   * The group keys of `groupby` with the default `sort=True`: every distinct
   * name exactly once, in ascending order.
   */
  function GroupKeys(names: seq<string>): (keys: seq<string>)
    ensures Ascending(keys)
    ensures forall x :: x in keys <==> x in names
  {
    if names == [] then []
    else Insert(GroupKeys(names[..|names| - 1]), names[|names| - 1])
  }

  /** How many rows carry the key `k`: the size of its group. */
  function Count(names: seq<string>, k: string): nat {
    if names == [] then 0
    else Count(names[..|names| - 1], k) + (if names[|names| - 1] == k then 1 else 0)
  }

  /** The values of the rows of group `k`, in row order. */
  function Select<T>(vals: seq<T>, names: seq<string>, k: string): seq<T>
    requires |vals| == |names|
  {
    if names == [] then []
    else
      var n := |names| - 1;
      Select(vals[..n], names[..n], k) + (if names[n] == k then [vals[n]] else [])
  }

  lemma {:induction false} SelectLength<T>(vals: seq<T>, names: seq<string>, k: string)
    requires |vals| == |names|
    ensures |Select(vals, names, k)| == Count(names, k)
    decreases |names|
  {
    if names != [] {
      var n := |names| - 1;
      SelectLength(vals[..n], names[..n], k);
    }
  }

  /** A key has a non-empty group exactly when some row carries it. */
  lemma {:induction false} CountPositive(names: seq<string>, k: string)
    ensures Count(names, k) > 0 <==> k in names
    decreases |names|
  {
    if names != [] {
      var n := |names| - 1;
      CountPositive(names[..n], k);
      assert names == names[..n] + [names[n]];
    }
  }

  /** The group sizes of the keys in `keys`. */
  function SumCounts(keys: seq<string>, names: seq<string>): nat {
    if keys == [] then 0
    else SumCounts(keys[..|keys| - 1], names) + Count(names, keys[|keys| - 1])
  }

  lemma {:induction false} SumCountsAppend(keys: seq<string>, names: seq<string>, n: string)
    ensures SumCounts(keys, names + [n]) == SumCounts(keys, names) + Count(keys, n)
    decreases |keys|
  {
    if keys != [] {
      var m := |keys| - 1;
      SumCountsAppend(keys[..m], names, n);
      assert (names + [n])[..|names|] == names;
    }
  }

  lemma {:induction false} CountDistinct(keys: seq<string>, n: string)
    requires Distinct(keys)
    ensures Count(keys, n) == if n in keys then 1 else 0
    decreases |keys|
  {
    if keys != [] {
      var m := |keys| - 1;
      assert Distinct(keys[..m]);
      CountDistinct(keys[..m], n);
      assert keys == keys[..m] + [keys[m]];
      if keys[m] == n {
        assert n !in keys[..m];
      }
    }
  }

  lemma {:induction false} SumCountsCovering(keys: seq<string>, names: seq<string>)
    requires Distinct(keys)
    requires forall x :: x in names ==> x in keys
    ensures SumCounts(keys, names) == |names|
    decreases |names|
  {
    if names == [] {
      SumCountsEmpty(keys);
    } else {
      var n := |names| - 1;
      assert names == names[..n] + [names[n]];
      SumCountsCovering(keys, names[..n]);
      SumCountsAppend(keys, names[..n], names[n]);
      CountDistinct(keys, names[n]);
    }
  }

  lemma {:induction false} SumCountsEmpty(keys: seq<string>)
    ensures SumCounts(keys, []) == 0
    decreases |keys|
  {
    if keys != [] {
      SumCountsEmpty(keys[..|keys| - 1]);
    }
  }

  /** The groups partition the rows: their sizes add up to the number of rows. */
  lemma GroupSizesSum(names: seq<string>)
    ensures SumCounts(GroupKeys(names), names) == |names|
  {
    AscendingDistinct(GroupKeys(names));
    SumCountsCovering(GroupKeys(names), names);
  }

  // ---------------------------------------------------------------------
  // `Series.mean()` after `pd.to_numeric(errors='coerce')`
  // ---------------------------------------------------------------------

  function ValidCount(xs: seq<Option<real>>): nat {
    if xs == [] then 0
    else ValidCount(xs[..|xs| - 1]) + (if xs[|xs| - 1].Some? then 1 else 0)
  }

  function ValidSum(xs: seq<Option<real>>): real {
    if xs == [] then 0.0
    else ValidSum(xs[..|xs| - 1]) + (if xs[|xs| - 1].Some? then xs[|xs| - 1].value else 0.0)
  }

  /** The mean of the values present; None (pandas' NaN) when there is none. */
  function Mean(xs: seq<Option<real>>): Option<real> {
    if ValidCount(xs) == 0 then None else Some(ValidSum(xs) / ValidCount(xs) as real)
  }

  /** The mean is undefined exactly when no value is present. */
  lemma {:induction false} MeanNoneIff(xs: seq<Option<real>>)
    ensures Mean(xs).None? <==> forall i :: 0 <= i < |xs| ==> xs[i].None?
    decreases |xs|
  {
    if xs != [] {
      var n := |xs| - 1;
      MeanNoneIff(xs[..n]);
      if Mean(xs[..n]).None? && xs[n].None? {
        forall i | 0 <= i < |xs|
          ensures xs[i].None?
        {
          if i < n {
            assert xs[..n][i] == xs[i];
          }
        }
      }
      if forall i :: 0 <= i < |xs| ==> xs[i].None? {
        forall i | 0 <= i < n
          ensures xs[..n][i].None?
        {
          assert xs[..n][i] == xs[i];
        }
      }
    }
  }

  /** `a` added to itself `n` times: a product that stays linear for the solver. */
  function Times(a: real, n: nat): real {
    if n == 0 then 0.0 else Times(a, n - 1) + a
  }

  lemma {:induction false} TimesIsProduct(a: real, n: nat)
    ensures Times(a, n) == a * n as real
    decreases n
  {
    if n > 0 {
      TimesIsProduct(a, n - 1);
      ScaleStep(a, (n - 1) as real);
      assert (n - 1) as real + 1.0 == n as real;
    }
  }

  lemma ScaleStep(a: real, c: real)
    ensures a * (c + 1.0) == a * c + a
  {
  }

  lemma {:induction false} ValidSumBounds(xs: seq<Option<real>>, lo: real, hi: real)
    requires forall i :: 0 <= i < |xs| && xs[i].Some? ==> lo <= xs[i].value <= hi
    ensures Times(lo, ValidCount(xs)) <= ValidSum(xs) <= Times(hi, ValidCount(xs))
    decreases |xs|
  {
    if xs != [] {
      var n := |xs| - 1;
      forall i | 0 <= i < n && xs[..n][i].Some?
        ensures lo <= xs[..n][i].value <= hi
      {
        assert xs[..n][i] == xs[i];
      }
      ValidSumBounds(xs[..n], lo, hi);
    }
  }

  /** The mean lies between the smallest and the largest value present. */
  lemma MeanBetween(xs: seq<Option<real>>, lo: real, hi: real)
    requires forall i :: 0 <= i < |xs| && xs[i].Some? ==> lo <= xs[i].value <= hi
    ensures Mean(xs).Some? ==> lo <= Mean(xs).value <= hi
  {
    var n := ValidCount(xs);
    if n > 0 {
      ValidSumBounds(xs, lo, hi);
      TimesIsProduct(lo, n);
      TimesIsProduct(hi, n);
      DivBounds(ValidSum(xs), n as real, lo, hi);
      assert Mean(xs) == Some(ValidSum(xs) / n as real);
    }
  }

  lemma DivBounds(s: real, c: real, lo: real, hi: real)
    requires c > 0.0 && lo * c <= s <= hi * c
    ensures lo <= s / c <= hi
  {
    var m := s / c;
    assert m * c == s;
  }

  /** A column holding one value `v` on every row has mean `v`. */
  lemma MeanOfConstant(xs: seq<Option<real>>, v: real)
    requires xs != []
    requires forall i :: 0 <= i < |xs| ==> xs[i] == Some(v)
    ensures Mean(xs) == Some(v)
  {
    MeanNoneIff(xs);
    assert xs[0].Some?;
    MeanBetween(xs, v, v);
  }

  lemma {:induction false} SelectConstant<T>(vals: seq<T>, names: seq<string>, k: string, v: T)
    requires |vals| == |names|
    requires forall i :: 0 <= i < |vals| ==> vals[i] == v
    ensures forall i :: 0 <= i < |Select(vals, names, k)| ==> Select(vals, names, k)[i] == v
    decreases |names|
  {
    if names != [] {
      var n := |names| - 1;
      SelectConstant(vals[..n], names[..n], k, v);
    }
  }

  /** The rows of one group of a constant column all hold that constant, so their mean is it. */
  lemma MeanOfSelectConstant(vals: seq<Option<real>>, names: seq<string>, k: string, v: real)
    requires |vals| == |names| && k in names
    requires forall i :: 0 <= i < |vals| ==> vals[i] == Some(v)
    ensures Mean(Select(vals, names, k)) == Some(v)
  {
    CountPositive(names, k);
    SelectLength(vals, names, k);
    SelectConstant(vals, names, k, Some(v));
    MeanOfConstant(Select(vals, names, k), v);
  }
}
