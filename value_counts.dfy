/** pandas' `series.value_counts().sort_index()`: one entry per distinct
    value, holding how often it occurs, keys in ascending order. The order is
    a parameter so that the same definition serves integer ratings and date
    strings. */
module ValueCounts {

  /** `less` is a strict total order. */
  ghost predicate StrictTotalOrder<K(!new)>(less: (K, K) -> bool)
  {
    && (forall a :: !less(a, a))
    && (forall a, b, c :: less(a, b) && less(b, c) ==> less(a, c))
    && (forall a, b :: a != b ==> less(a, b) || less(b, a))
  }

  /** Every key of `d` lies strictly above `lo`. */
  ghost predicate AllAbove<K>(d: seq<(K, nat)>, lo: K, less: (K, K) -> bool)
  {
    forall i :: 0 <= i < |d| ==> less(lo, d[i].0)
  }

  /** Keys strictly ascending, so also pairwise distinct. */
  ghost predicate Ascending<K>(d: seq<(K, nat)>, less: (K, K) -> bool)
  {
    d == [] || (AllAbove(d[1..], d[0].0, less) && Ascending(d[1..], less))
  }

  /** Every count is at least one. */
  ghost predicate Positive<K>(d: seq<(K, nat)>)
  {
    forall i :: 0 <= i < |d| ==> d[i].1 > 0
  }

  /** The count recorded for `k`, 0 when `k` is not a key. */
  function CountOf<K(==)>(d: seq<(K, nat)>, k: K): nat
  {
    if d == [] then 0 else if d[0].0 == k then d[0].1 else CountOf(d[1..], k)
  }

  /** The sum of all counts. */
  function Total<K>(d: seq<(K, nat)>): nat
  {
    if d == [] then 0 else d[0].1 + Total(d[1..])
  }

  /** Records one more occurrence of `x`. */
  function Insert<K(==)>(d: seq<(K, nat)>, x: K, less: (K, K) -> bool): seq<(K, nat)>
  {
    if d == [] then [(x, 1)]
    else if d[0].0 == x then [(x, d[0].1 + 1)] + d[1..]
    else if less(x, d[0].0) then [(x, 1)] + d
    else [d[0]] + Insert(d[1..], x, less)
  }

  /** The value counts of `xs`, keys ascending under `less`. */
  function Counts<K(==)>(xs: seq<K>, less: (K, K) -> bool): seq<(K, nat)>
  {
    if xs == [] then [] else Insert(Counts(xs[..|xs| - 1], less), xs[|xs| - 1], less)
  }

  /** A key that every key of `d` lies above is not a key of `d`. */
  lemma {:induction false} AboveAbsent<K(!new)>(d: seq<(K, nat)>, lo: K, less: (K, K) -> bool)
    requires StrictTotalOrder(less) && AllAbove(d, lo, less)
    ensures CountOf(d, lo) == 0
  {
    if d != [] {
      assert less(lo, d[0].0);
      AboveAbsent(d[1..], lo, less);
    }
  }

  /** A lower bound of the first key of an ascending list bounds all keys. */
  lemma BelowFirst<K(!new)>(d: seq<(K, nat)>, lo: K, less: (K, K) -> bool)
    requires StrictTotalOrder(less) && d != [] && Ascending(d, less) && less(lo, d[0].0)
    ensures AllAbove(d, lo, less)
  {
    forall i | 1 <= i < |d|
      ensures less(lo, d[i].0)
    {
      assert less(d[0].0, d[1..][i - 1].0);
    }
  }

  /** Inserting a key above `lo` keeps every key above `lo`. */
  lemma {:induction false} InsertAbove<K>(d: seq<(K, nat)>, x: K, lo: K, less: (K, K) -> bool)
    requires AllAbove(d, lo, less) && less(lo, x)
    ensures AllAbove(Insert(d, x, less), lo, less)
  {
    if d != [] && d[0].0 != x && !less(x, d[0].0) {
      InsertAbove(d[1..], x, lo, less);
    }
  }

  /** Inserting keeps the list ascending with positive counts, adds one to
      the total and one to the count of `x` only. */
  lemma {:induction false} InsertSpec<K(!new)>(d: seq<(K, nat)>, x: K, less: (K, K) -> bool)
    requires StrictTotalOrder(less) && Ascending(d, less) && Positive(d)
    ensures Ascending(Insert(d, x, less), less) && Positive(Insert(d, x, less))
    ensures Total(Insert(d, x, less)) == Total(d) + 1
    ensures forall k :: CountOf(Insert(d, x, less), k) == CountOf(d, k) + (if k == x then 1 else 0)
  {
    if d == [] {
    } else if d[0].0 == x {
      assert Insert(d, x, less)[1..] == d[1..];
    } else if less(x, d[0].0) {
      var r := Insert(d, x, less);
      assert r[1..] == d;
      BelowFirst(d, x, less);
      AboveAbsent(d, x, less);
    } else {
      assert less(d[0].0, x);
      InsertSpec(d[1..], x, less);
      InsertAbove(d[1..], x, d[0].0, less);
      var r := Insert(d, x, less);
      assert r[0] == d[0] && r[1..] == Insert(d[1..], x, less);
    }
  }

  /** The value counts of `xs`: keys pairwise strictly ascending, each entry
      holding the multiplicity of its key in `xs` (so at least one), every
      value of `xs` listed as a key, counts summing to `|xs|`. */
  lemma CountsSpec<K(!new)>(xs: seq<K>, less: (K, K) -> bool)
    requires StrictTotalOrder(less)
    ensures var d := Counts(xs, less);
      forall i, j :: 0 <= i < j < |d| ==> less(d[i].0, d[j].0)
    ensures forall k :: CountOf(Counts(xs, less), k) == multiset(xs)[k]
    ensures var d := Counts(xs, less);
      forall i :: 0 <= i < |d| ==> d[i].1 == multiset(xs)[d[i].0] > 0
    ensures var d := Counts(xs, less);
      forall x :: x in xs ==> exists i :: 0 <= i < |d| && d[i].0 == x
    ensures Total(Counts(xs, less)) == |xs|
  {
    var d := Counts(xs, less);
    CountsInvariant(xs, less);
    AscendingPairwise(d, less);
    forall i | 0 <= i < |d|
      ensures d[i].1 == multiset(xs)[d[i].0] > 0
    {
      CountOfEntry(d, i, less);
    }
    forall x | x in xs
      ensures exists i :: 0 <= i < |d| && d[i].0 == x
    {
      var i := CountOfKey(d, x);
    }
  }

  /** The invariant `Counts` maintains, element by element. */
  lemma {:induction false} CountsInvariant<K(!new)>(xs: seq<K>, less: (K, K) -> bool)
    requires StrictTotalOrder(less)
    ensures Ascending(Counts(xs, less), less) && Positive(Counts(xs, less))
    ensures forall k :: CountOf(Counts(xs, less), k) == multiset(xs)[k]
    ensures Total(Counts(xs, less)) == |xs|
  {
    if xs != [] {
      var init, x := xs[..|xs| - 1], xs[|xs| - 1];
      CountsInvariant(init, less);
      assert xs == init + [x];
      CountsStep(init, x, less);
    }
  }

  /** One step of `Counts`: inserting `x` keeps the invariant for `init + [x]`. */
  lemma CountsStep<K(!new)>(init: seq<K>, x: K, less: (K, K) -> bool)
    requires StrictTotalOrder(less)
    requires Ascending(Counts(init, less), less) && Positive(Counts(init, less))
    requires forall k :: CountOf(Counts(init, less), k) == multiset(init)[k]
    requires Total(Counts(init, less)) == |init|
    ensures Ascending(Counts(init + [x], less), less) && Positive(Counts(init + [x], less))
    ensures forall k :: CountOf(Counts(init + [x], less), k) == multiset(init + [x])[k]
    ensures Total(Counts(init + [x], less)) == |init| + 1
  {
    var xs := init + [x];
    assert xs[..|xs| - 1] == init && xs[|xs| - 1] == x;
    var d := Counts(init, less);
    assert Counts(xs, less) == Insert(d, x, less);
    InsertSpec(d, x, less);
    assert multiset(xs) == multiset(init) + multiset{x};
  }

  /** In an ascending list the count of each entry's key is that entry's count. */
  lemma {:induction false} CountOfEntry<K(!new)>(d: seq<(K, nat)>, i: nat, less: (K, K) -> bool)
    requires StrictTotalOrder(less) && Ascending(d, less) && i < |d|
    ensures CountOf(d, d[i].0) == d[i].1
  {
    if i > 0 {
      assert d[i] == d[1..][i - 1];
      assert less(d[0].0, d[i].0);
      CountOfEntry(d[1..], i - 1, less);
    }
  }

  /** A key with a positive count is one of the entries. */
  lemma {:induction false} CountOfKey<K>(d: seq<(K, nat)>, k: K) returns (i: nat)
    requires CountOf(d, k) > 0
    ensures i < |d| && d[i].0 == k
  {
    if d[0].0 == k {
      i := 0;
    } else {
      var j := CountOfKey(d[1..], k);
      i := j + 1;
    }
  }

  /** Ascending keys are pairwise strictly ordered by position. */
  lemma {:induction false} AscendingPairwise<K>(d: seq<(K, nat)>, less: (K, K) -> bool)
    requires Ascending(d, less)
    ensures forall i, j :: 0 <= i < j < |d| ==> less(d[i].0, d[j].0)
  {
    if d != [] {
      AscendingPairwise(d[1..], less);
      forall i, j | 0 <= i < j < |d|
        ensures less(d[i].0, d[j].0)
      {
        assert d[j] == d[1..][j - 1];
        if i > 0 { assert d[i] == d[1..][i - 1]; }
      }
    }
  }

  /** The order `<` on integers. */
  function IntLess(a: int, b: int): bool
  {
    a < b
  }

  lemma IntLessOrder()
    ensures StrictTotalOrder(IntLess)
  {
  }
}
