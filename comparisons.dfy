/** The rows of the pairwise-comparison table built by `perform_tukey_hsd`
    in mplib/bar_w_stats.py and stats_visualization.py, and the last step
    both share: the Bonferroni column `p_adj = min(p_value * n_tests, 1)`
    over the whole table and the `significance` column derived from it. */
module Comparisons {
  import opened Significance

  /** A recorded comparison before correction: the group, the two compared
      columns (`group1`, `group2`) and the t-test p-value. */
  datatype RawTest = RawTest(group: string, group1: string, group2: string, p: real)

  /** A row of the returned table. */
  datatype TestResult = TestResult(group: string, group1: string, group2: string,
                                   p: real, pAdj: real, significance: string)

  /** The row for `t` in a table of `nTests` comparisons. */
  function Finish(t: RawTest, nTests: nat): TestResult {
    var a := Adjust(t.p, nTests);
    TestResult(t.group, t.group1, t.group2, t.p, a, Symbol(a))
  }

  /** The first `|raw|` rows finished against a table of `nTests` rows. */
  function FinishAll(raw: seq<RawTest>, nTests: nat): (r: seq<TestResult>)
    ensures |r| == |raw|
  {
    if raw == [] then []
    else FinishAll(raw[..|raw| - 1], nTests) + [Finish(raw[|raw| - 1], nTests)]
  }

  /** The returned table: every raw row, corrected by the number of rows. */
  function Corrected(raw: seq<RawTest>): seq<TestResult> {
    FinishAll(raw, |raw|)
  }

  /** Adding the two columns: `n_tests = len(result_df)`, then the
      corrected value and its symbol row by row. */
  method ApplyCorrection(raw: seq<RawTest>) returns (r: seq<TestResult>)
    ensures r == Corrected(raw)
  {
    var nTests := |raw|;
    r := [];
    for k := 0 to |raw|
      invariant r == FinishAll(raw[..k], nTests)
    {
      assert raw[..k + 1][..k] == raw[..k];
      r := r + [Finish(raw[k], nTests)];
    }
    assert raw[..|raw|] == raw;
  }

  lemma {:induction false} FinishAllAt(raw: seq<RawTest>, nTests: nat, k: nat)
    requires k < |raw|
    ensures FinishAll(raw, nTests)[k] == Finish(raw[k], nTests)
  {
    if k < |raw| - 1 {
      FinishAllAt(raw[..|raw| - 1], nTests, k);
    }
  }

  /** `t` is the row for `raw` in a table of `n` comparisons: the same
      comparison and raw p-value, `p_adj` equal to `min(p * n, 1)` and
      therefore at most 1 and, for a p-value in [0, 1] and n >= 1, at least
      the raw one, and a symbol read off `p_adj`, never off the raw value. */
  predicate CorrectRow(t: TestResult, raw: RawTest, n: nat) {
    && t.group == raw.group && t.group1 == raw.group1 && t.group2 == raw.group2
    && t.p == raw.p
    && t.pAdj <= 1.0
    && (t.pAdj == 1.0 || t.pAdj == raw.p * n as real)
    && (raw.p * n as real < 1.0 ==> t.pAdj == raw.p * n as real)
    && (0.0 <= raw.p <= 1.0 && n >= 1 ==> raw.p <= t.pAdj)
    && t.significance == Symbol(t.pAdj)
  }

  lemma FinishSpec(raw: RawTest, n: nat)
    ensures CorrectRow(Finish(raw, n), raw, n)
  {
    if 0.0 <= raw.p <= 1.0 && n >= 1 {
      AdjustBounds(raw.p, n);
    }
  }

  /** The corrected table keeps every comparison in place, each row
      corrected against the size of the whole table. */
  lemma CorrectedSpec(raw: seq<RawTest>)
    ensures |Corrected(raw)| == |raw|
    ensures forall k :: 0 <= k < |raw| ==> CorrectRow(Corrected(raw)[k], raw[k], |raw|)
  {
    forall k | 0 <= k < |raw| ensures CorrectRow(Corrected(raw)[k], raw[k], |raw|) {
      FinishAllAt(raw, |raw|, k);
      FinishSpec(raw[k], |raw|);
    }
  }

  /** A comparison is never reported as more significant after correction
      than its raw p-value would make it. */
  lemma CorrectionNeverAddsStars(raw: seq<RawTest>, k: nat)
    requires k < |raw|
    requires 0.0 <= raw[k].p <= 1.0
    ensures Stars(Corrected(raw)[k].significance) <= Stars(Symbol(raw[k].p))
  {
    CorrectedSpec(raw);
    SymbolMonotone(raw[k].p, Corrected(raw)[k].pAdj);
  }

  // ---------------------------------------------------------------------
  // The pairs compared within one group

  /** `stats.ttest_ind(values1, values2)`'s p-value. */
  type TTest = (seq<real>, seq<real>) -> real

  /** The samples of one group, in the order the script enumerates them:
      each name (attribute or genotype) with its values. */
  datatype Samples = Samples(names: seq<string>, values: seq<seq<real>>)

  predicate Aligned(x: Samples) {
    |x.names| == |x.values|
  }

  /** Both samples have at least two values, so the pair is tested. */
  predicate Enough(x: Samples, i: nat, j: nat)
    requires Aligned(x) && i < |x.names| && j < |x.names|
  {
    |x.values[i]| >= 2 && |x.values[j]| >= 2
  }

  /** The raw row recorded for samples `i` and `j` of group `g`. */
  function TestOf(g: string, x: Samples, i: nat, j: nat, ttest: TTest): RawTest
    requires Aligned(x) && i < |x.names| && j < |x.names|
  {
    RawTest(g, x.names[i], x.names[j], ttest(x.values[i], x.values[j]))
  }

  function PairTest(g: string, x: Samples, i: nat, j: nat, ttest: TTest): seq<RawTest>
    requires Aligned(x) && i < |x.names| && j < |x.names|
  {
    if Enough(x, i, j) then [TestOf(g, x, i, j, ttest)] else []
  }

  /** The rows for sample `i` against the samples `i < j' < j`. */
  function RowTests(g: string, x: Samples, i: nat, j: nat, ttest: TTest): seq<RawTest>
    requires Aligned(x) && i < |x.names| && j <= |x.names|
  {
    if j <= i + 1 then [] else RowTests(g, x, i, j - 1, ttest) + PairTest(g, x, i, j - 1, ttest)
  }

  /** The rows of group `g` whose first sample is below `n`. */
  function GroupTests(g: string, x: Samples, n: nat, ttest: TTest): seq<RawTest>
    requires Aligned(x) && n <= |x.names|
  {
    if n == 0 then [] else GroupTests(g, x, n - 1, ttest) + RowTests(g, x, n - 1, |x.names|, ttest)
  }

  /** The outer loop `for i, attr1 in enumerate(...)` of one group. */
  method GroupPass(g: string, x: Samples, ttest: TTest, acc: seq<RawTest>) returns (raw: seq<RawTest>)
    requires Aligned(x)
    ensures raw == acc + GroupTests(g, x, |x.names|, ttest)
  {
    raw := acc;
    for i := 0 to |x.names|
      invariant raw == acc + GroupTests(g, x, i, ttest)
    {
      raw := RowPass(g, x, i, ttest, raw);
    }
  }

  /** The inner loop: sample `i` against every later sample, skipping a pair
      when either side has fewer than two values. */
  method RowPass(g: string, x: Samples, i: nat, ttest: TTest, acc: seq<RawTest>) returns (raw: seq<RawTest>)
    requires Aligned(x) && i < |x.names|
    ensures raw == acc + RowTests(g, x, i, |x.names|, ttest)
  {
    raw := acc;
    for j := i + 1 to |x.names|
      invariant raw == acc + RowTests(g, x, i, j, ttest)
    {
      var values1 := x.values[i];
      var values2 := x.values[j];
      if |values1| >= 2 && |values2| >= 2 {
        raw := raw + [RawTest(g, x.names[i], x.names[j], ttest(values1, values2))];
      }
    }
  }

  lemma {:induction false} RowTestsSpec(g: string, x: Samples, i: nat, j: nat, ttest: TTest)
    requires Aligned(x) && i < |x.names| && j <= |x.names|
    ensures forall j' :: i < j' < j && Enough(x, i, j') ==> TestOf(g, x, i, j', ttest) in RowTests(g, x, i, j, ttest)
    ensures forall t :: t in RowTests(g, x, i, j, ttest) ==>
              exists j' :: i < j' < j && Enough(x, i, j') && t == TestOf(g, x, i, j', ttest)
  {
    if j > i + 1 {
      RowTestsSpec(g, x, i, j - 1, ttest);
    }
  }

  /** A group's rows are the pairs `i < j` of its samples with at least two
      values on both sides, and nothing else. */
  lemma {:induction false} GroupTestsSpec(g: string, x: Samples, n: nat, ttest: TTest)
    requires Aligned(x) && n <= |x.names|
    ensures forall i, j :: 0 <= i < n && i < j < |x.names| && Enough(x, i, j) ==>
              TestOf(g, x, i, j, ttest) in GroupTests(g, x, n, ttest)
    ensures forall t :: t in GroupTests(g, x, n, ttest) ==>
              exists i, j :: 0 <= i < n && i < j < |x.names| && Enough(x, i, j) && t == TestOf(g, x, i, j, ttest)
  {
    if n > 0 {
      GroupTestsSpec(g, x, n - 1, ttest);
      RowTestsSpec(g, x, n - 1, |x.names|, ttest);
    }
  }

  /** With distinct names a row identifies its pair of samples: the row of
      `i < j` is present exactly when both have at least two values. */
  lemma GroupTestsIff(g: string, x: Samples, i: nat, j: nat, ttest: TTest)
    requires Aligned(x) && i < j < |x.names|
    requires forall a, b :: 0 <= a < b < |x.names| ==> x.names[a] != x.names[b]
    ensures TestOf(g, x, i, j, ttest) in GroupTests(g, x, |x.names|, ttest) <==> Enough(x, i, j)
  {
    GroupTestsSpec(g, x, |x.names|, ttest);
    if TestOf(g, x, i, j, ttest) in GroupTests(g, x, |x.names|, ttest) {
      var i', j' :| 0 <= i' < |x.names| && i' < j' < |x.names| && Enough(x, i', j') &&
                    TestOf(g, x, i, j, ttest) == TestOf(g, x, i', j', ttest);
      NameIndex(x.names, i, i');
      NameIndex(x.names, j, j');
    }
  }

  lemma NameIndex(names: seq<string>, a: nat, b: nat)
    requires forall a, b :: 0 <= a < b < |names| ==> names[a] != names[b]
    requires a < |names| && b < |names| && names[a] == names[b]
    ensures a == b
  {
  }

  // ---------------------------------------------------------------------
  // Which pair each row compares, and in what order

  /** The position a row comes from: the group's index in the group order
      and the indices `i < j` of the two samples compared. */
  datatype Key = Key(group: nat, i: nat, j: nat)

  /** (group, i, j) in lexicographic order. */
  predicate KeyLt(a: Key, b: Key) {
    a.group < b.group || (a.group == b.group && (a.i < b.i || (a.i == b.i && a.j < b.j)))
  }

  predicate Increasing(ks: seq<Key>) {
    forall a, b :: 0 <= a < b < |ks| ==> KeyLt(ks[a], ks[b])
  }

  /** The keys of `RowTests(g, x, i, j, _)`, for the group at index `k`. */
  function RowKeys(k: nat, x: Samples, i: nat, j: nat): seq<Key>
    requires Aligned(x) && i < |x.names| && j <= |x.names|
  {
    if j <= i + 1 then [] else RowKeys(k, x, i, j - 1) + (if Enough(x, i, j - 1) then [Key(k, i, j - 1)] else [])
  }

  /** The keys of `GroupTests(g, x, n, _)`, for the group at index `k`. */
  function GroupKeys(k: nat, x: Samples, n: nat): seq<Key>
    requires Aligned(x) && n <= |x.names|
  {
    if n == 0 then [] else GroupKeys(k, x, n - 1) + RowKeys(k, x, n - 1, |x.names|)
  }

  /** The rows `ts` compare, one by one, the pairs `ks` of group `g` (at
      index `k`), each pair tested. */
  predicate GroupListed(g: string, x: Samples, k: nat, ks: seq<Key>, ts: seq<RawTest>, ttest: TTest)
    requires Aligned(x)
  {
    && |ts| == |ks|
    && forall m :: 0 <= m < |ks| ==>
         && ks[m].group == k && ks[m].i < ks[m].j < |x.names| && Enough(x, ks[m].i, ks[m].j)
         && ts[m] == TestOf(g, x, ks[m].i, ks[m].j, ttest)
  }

  lemma GroupListedAppend(g: string, x: Samples, k: nat, ks1: seq<Key>, ts1: seq<RawTest>,
                          ks2: seq<Key>, ts2: seq<RawTest>, ttest: TTest)
    requires Aligned(x)
    requires GroupListed(g, x, k, ks1, ts1, ttest) && GroupListed(g, x, k, ks2, ts2, ttest)
    ensures GroupListed(g, x, k, ks1 + ks2, ts1 + ts2, ttest)
  {
    forall m | 0 <= m < |ks1 + ks2|
      ensures (ks1 + ks2)[m].group == k && (ks1 + ks2)[m].i < (ks1 + ks2)[m].j < |x.names|
              && Enough(x, (ks1 + ks2)[m].i, (ks1 + ks2)[m].j)
              && (ts1 + ts2)[m] == TestOf(g, x, (ks1 + ks2)[m].i, (ks1 + ks2)[m].j, ttest)
    {
      if m >= |ks1| {
        assert (ks1 + ks2)[m] == ks2[m - |ks1|] && (ts1 + ts2)[m] == ts2[m - |ks1|];
      } else {
        assert (ks1 + ks2)[m] == ks1[m] && (ts1 + ts2)[m] == ts1[m];
      }
    }
  }

  lemma IncreasingAppend(a: seq<Key>, b: seq<Key>)
    requires Increasing(a) && Increasing(b)
    requires forall p, q :: 0 <= p < |a| && 0 <= q < |b| ==> KeyLt(a[p], b[q])
    ensures Increasing(a + b)
  {
    forall p, q | 0 <= p < q < |a + b| ensures KeyLt((a + b)[p], (a + b)[q]) {
      if q < |a| {
        assert (a + b)[p] == a[p] && (a + b)[q] == a[q];
      } else if p >= |a| {
        assert (a + b)[p] == b[p - |a|] && (a + b)[q] == b[q - |a|];
      } else {
        assert (a + b)[p] == a[p] && (a + b)[q] == b[q - |a|];
      }
    }
  }

  /** Appending the pair `(i, c)`, when tested, to the keys of the pairs
      `(i, j')` with `j' < c`; `j` is `c + 1`. */
  lemma RowKeysStep(g: string, x: Samples, k: nat, i: nat, c: nat, j: nat, ttest: TTest)
    requires Aligned(x) && i < c < |x.names| && j == c + 1
    requires GroupListed(g, x, k, RowKeys(k, x, i, c), RowTests(g, x, i, c, ttest), ttest)
    requires forall m :: 0 <= m < |RowKeys(k, x, i, c)| ==> RowKeys(k, x, i, c)[m].i == i && RowKeys(k, x, i, c)[m].j < c
    requires Increasing(RowKeys(k, x, i, c))
    requires forall j' :: i < j' < c && Enough(x, i, j') ==> Key(k, i, j') in RowKeys(k, x, i, c)
    ensures GroupListed(g, x, k, RowKeys(k, x, i, j), RowTests(g, x, i, j, ttest), ttest)
    ensures forall m :: 0 <= m < |RowKeys(k, x, i, j)| ==> RowKeys(k, x, i, j)[m].i == i && RowKeys(k, x, i, j)[m].j < j
    ensures Increasing(RowKeys(k, x, i, j))
    ensures forall j' :: i < j' < j && Enough(x, i, j') ==> Key(k, i, j') in RowKeys(k, x, i, j)
  {
    var ks := RowKeys(k, x, i, c);
    var last: seq<Key> := if Enough(x, i, c) then [Key(k, i, c)] else [];
    assert RowKeys(k, x, i, j) == ks + last;
    assert RowTests(g, x, i, j, ttest) == RowTests(g, x, i, c, ttest) + PairTest(g, x, i, c, ttest);
    GroupListedAppend(g, x, k, ks, RowTests(g, x, i, c, ttest), last, PairTest(g, x, i, c, ttest), ttest);
    IncreasingAppend(ks, last);
    forall m | 0 <= m < |ks + last| ensures (ks + last)[m].i == i && (ks + last)[m].j < j {
      if m < |ks| { assert (ks + last)[m] == ks[m]; }
    }
  }

  /** The inner loop's rows are the tested pairs `(i, j')`, `j'` below
      `j`, in increasing `j'`. */
  lemma {:induction false} RowKeysSpec(g: string, x: Samples, k: nat, i: nat, j: nat, ttest: TTest)
    requires Aligned(x) && i < |x.names| && j <= |x.names|
    ensures GroupListed(g, x, k, RowKeys(k, x, i, j), RowTests(g, x, i, j, ttest), ttest)
    ensures forall m :: 0 <= m < |RowKeys(k, x, i, j)| ==> RowKeys(k, x, i, j)[m].i == i && RowKeys(k, x, i, j)[m].j < j
    ensures Increasing(RowKeys(k, x, i, j))
    ensures forall j' :: i < j' < j && Enough(x, i, j') ==> Key(k, i, j') in RowKeys(k, x, i, j)
  {
    if j > i + 1 {
      RowKeysSpec(g, x, k, i, j - 1, ttest);
      RowKeysStep(g, x, k, i, j - 1, j, ttest);
    }
  }

  /** Appending row `r`'s keys `b` to the keys `a` of the rows below it. */
  lemma GroupKeysAppend(g: string, x: Samples, k: nat, r: nat, a: seq<Key>, ta: seq<RawTest>,
                        b: seq<Key>, tb: seq<RawTest>, ttest: TTest)
    requires Aligned(x) && r < |x.names|
    requires GroupListed(g, x, k, a, ta, ttest) && GroupListed(g, x, k, b, tb, ttest)
    requires forall m :: 0 <= m < |a| ==> a[m].i < r
    requires forall m :: 0 <= m < |b| ==> b[m].i == r
    requires Increasing(a) && Increasing(b)
    requires forall i, j :: 0 <= i < r && i < j < |x.names| && Enough(x, i, j) ==> Key(k, i, j) in a
    requires forall j' :: r < j' < |x.names| && Enough(x, r, j') ==> Key(k, r, j') in b
    ensures GroupListed(g, x, k, a + b, ta + tb, ttest)
    ensures forall m :: 0 <= m < |a + b| ==> (a + b)[m].i <= r
    ensures Increasing(a + b)
    ensures forall i, j :: 0 <= i <= r && i < j < |x.names| && Enough(x, i, j) ==> Key(k, i, j) in a + b
  {
    GroupListedAppend(g, x, k, a, ta, b, tb, ttest);
    IncreasingAppend(a, b);
    forall m | 0 <= m < |a + b| ensures (a + b)[m].i <= r {
      if m < |a| { assert (a + b)[m] == a[m]; } else { assert (a + b)[m] == b[m - |a|]; }
    }
  }

  /** The same step on `GroupKeys` itself; `n` is `r + 1`. */
  lemma GroupKeysStep(g: string, x: Samples, k: nat, r: nat, n: nat, ttest: TTest)
    requires Aligned(x) && r < |x.names| && n == r + 1
    requires GroupListed(g, x, k, GroupKeys(k, x, r), GroupTests(g, x, r, ttest), ttest)
    requires GroupListed(g, x, k, RowKeys(k, x, r, |x.names|), RowTests(g, x, r, |x.names|, ttest), ttest)
    requires forall m :: 0 <= m < |GroupKeys(k, x, r)| ==> GroupKeys(k, x, r)[m].i < r
    requires forall m :: 0 <= m < |RowKeys(k, x, r, |x.names|)| ==> RowKeys(k, x, r, |x.names|)[m].i == r
    requires Increasing(GroupKeys(k, x, r)) && Increasing(RowKeys(k, x, r, |x.names|))
    requires forall i, j :: 0 <= i < r && i < j < |x.names| && Enough(x, i, j) ==> Key(k, i, j) in GroupKeys(k, x, r)
    requires forall j' :: r < j' < |x.names| && Enough(x, r, j') ==> Key(k, r, j') in RowKeys(k, x, r, |x.names|)
    ensures GroupListed(g, x, k, GroupKeys(k, x, n), GroupTests(g, x, n, ttest), ttest)
    ensures forall m :: 0 <= m < |GroupKeys(k, x, n)| ==> GroupKeys(k, x, n)[m].i < n
    ensures Increasing(GroupKeys(k, x, n))
    ensures forall i, j :: 0 <= i < n && i < j < |x.names| && Enough(x, i, j) ==> Key(k, i, j) in GroupKeys(k, x, n)
  {
    var a, b := GroupKeys(k, x, r), RowKeys(k, x, r, |x.names|);
    var ta, tb := GroupTests(g, x, r, ttest), RowTests(g, x, r, |x.names|, ttest);
    assert GroupKeys(k, x, n) == a + b;
    assert GroupTests(g, x, n, ttest) == ta + tb;
    GroupKeysAppend(g, x, k, r, a, ta, b, tb, ttest);
  }

  /** A group's rows are its tested pairs in `(i, j)` order, once each. */
  lemma {:induction false} GroupKeysSpec(g: string, x: Samples, k: nat, n: nat, ttest: TTest)
    requires Aligned(x) && n <= |x.names|
    ensures GroupListed(g, x, k, GroupKeys(k, x, n), GroupTests(g, x, n, ttest), ttest)
    ensures forall m :: 0 <= m < |GroupKeys(k, x, n)| ==> GroupKeys(k, x, n)[m].i < n
    ensures Increasing(GroupKeys(k, x, n))
    ensures forall i, j :: 0 <= i < n && i < j < |x.names| && Enough(x, i, j) ==> Key(k, i, j) in GroupKeys(k, x, n)
  {
    if n > 0 {
      GroupKeysSpec(g, x, k, n - 1, ttest);
      RowKeysSpec(g, x, k, n - 1, |x.names|, ttest);
      GroupKeysStep(g, x, k, n - 1, n, ttest);
    }
  }

  /** A group with fewer than two samples has no pair. */
  lemma {:induction false} FewSamplesNoTests(g: string, x: Samples, ttest: TTest)
    requires Aligned(x) && |x.names| < 2
    ensures GroupTests(g, x, |x.names|, ttest) == []
  {
  }

  // ---------------------------------------------------------------------
  // The tables of several groups

  predicate AllAligned(xs: seq<Samples>) {
    forall k :: 0 <= k < |xs| ==> Aligned(xs[k])
  }

  /** The rows of the groups `gs`, group after group, `xs[k]` holding the
      samples of `gs[k]`. */
  function Table(gs: seq<string>, xs: seq<Samples>, ttest: TTest): seq<RawTest>
    requires |gs| == |xs| && AllAligned(xs)
  {
    if gs == [] then []
    else
      var n := |gs| - 1;
      assert Aligned(xs[n]);
      Table(gs[..n], xs[..n], ttest) + GroupTests(gs[n], xs[n], |xs[n].names|, ttest)
  }

  /** The key of every row of `Table(_, xs, _)`. */
  function TableKeys(xs: seq<Samples>): seq<Key>
    requires AllAligned(xs)
  {
    if xs == [] then []
    else
      var n := |xs| - 1;
      assert Aligned(xs[n]);
      TableKeys(xs[..n]) + GroupKeys(n, xs[n], |xs[n].names|)
  }

  /** `key` names a tested pair of the groups `xs`. */
  predicate ValidKey(xs: seq<Samples>, key: Key)
    requires AllAligned(xs)
  {
    key.group < |xs| && key.i < key.j < |xs[key.group].names| && Enough(xs[key.group], key.i, key.j)
  }

  /** The rows `ts` compare the pairs `ks`, one by one. */
  predicate Listed(gs: seq<string>, xs: seq<Samples>, ks: seq<Key>, ts: seq<RawTest>, ttest: TTest)
    requires |gs| == |xs| && AllAligned(xs)
  {
    && |ts| == |ks|
    && forall m :: 0 <= m < |ks| ==>
         ValidKey(xs, ks[m]) &&
         ts[m] == TestOf(gs[ks[m].group], xs[ks[m].group], ks[m].i, ks[m].j, ttest)
  }

  lemma ListedPrefix(gs: seq<string>, xs: seq<Samples>, ks: seq<Key>, ts: seq<RawTest>, ttest: TTest)
    requires |gs| == |xs| > 0 && AllAligned(xs)
    requires Listed(gs[..|gs| - 1], xs[..|xs| - 1], ks, ts, ttest)
    ensures Listed(gs, xs, ks, ts, ttest)
    ensures forall m :: 0 <= m < |ks| ==> ks[m].group < |gs| - 1
  {
    var n := |gs| - 1;
    forall m | 0 <= m < |ks|
      ensures ValidKey(xs, ks[m]) &&
              ts[m] == TestOf(gs[ks[m].group], xs[ks[m].group], ks[m].i, ks[m].j, ttest)
    {
      var c := ks[m].group;
      assert xs[..n][c] == xs[c] && gs[..n][c] == gs[c];
    }
  }

  lemma ListedGroup(gs: seq<string>, xs: seq<Samples>, ks: seq<Key>, ts: seq<RawTest>, ttest: TTest)
    requires |gs| == |xs| > 0 && AllAligned(xs)
    requires GroupListed(gs[|gs| - 1], xs[|xs| - 1], |xs| - 1, ks, ts, ttest)
    ensures Listed(gs, xs, ks, ts, ttest)
  {
  }

  lemma ListedAppend(gs: seq<string>, xs: seq<Samples>, ks1: seq<Key>, ts1: seq<RawTest>,
                     ks2: seq<Key>, ts2: seq<RawTest>, ttest: TTest)
    requires |gs| == |xs| && AllAligned(xs)
    requires Listed(gs, xs, ks1, ts1, ttest) && Listed(gs, xs, ks2, ts2, ttest)
    ensures Listed(gs, xs, ks1 + ks2, ts1 + ts2, ttest)
  {
    forall m | 0 <= m < |ks1 + ks2|
      ensures ValidKey(xs, (ks1 + ks2)[m]) &&
              (ts1 + ts2)[m] == TestOf(gs[(ks1 + ks2)[m].group], xs[(ks1 + ks2)[m].group],
                                       (ks1 + ks2)[m].i, (ks1 + ks2)[m].j, ttest)
    {
      if m >= |ks1| {
        assert (ks1 + ks2)[m] == ks2[m - |ks1|] && (ts1 + ts2)[m] == ts2[m - |ks1|];
      } else {
        assert (ks1 + ks2)[m] == ks1[m] && (ts1 + ts2)[m] == ts1[m];
      }
    }
  }

  /** The table lists, row by row, the tested pairs of every group, in
      (group, i, j) order and therefore once each; every tested pair has
      its row. */
  lemma {:induction false} TableSpec(gs: seq<string>, xs: seq<Samples>, ttest: TTest)
    requires |gs| == |xs| && AllAligned(xs)
    ensures Listed(gs, xs, TableKeys(xs), Table(gs, xs, ttest), ttest)
    ensures Increasing(TableKeys(xs))
    ensures forall key :: ValidKey(xs, key) ==> key in TableKeys(xs)
  {
    if gs != [] {
      var n := |gs| - 1;
      assert AllAligned(xs[..n]);
      TableSpec(gs[..n], xs[..n], ttest);
      var a := TableKeys(xs[..n]);
      var b := GroupKeys(n, xs[n], |xs[n].names|);
      ListedPrefix(gs, xs, a, Table(gs[..n], xs[..n], ttest), ttest);
      GroupKeysSpec(gs[n], xs[n], n, |xs[n].names|, ttest);
      ListedGroup(gs, xs, b, GroupTests(gs[n], xs[n], |xs[n].names|, ttest), ttest);
      ListedAppend(gs, xs, a, Table(gs[..n], xs[..n], ttest), b, GroupTests(gs[n], xs[n], |xs[n].names|, ttest), ttest);
      IncreasingAppend(a, b);
      assert TableKeys(xs) == a + b;
      forall key | ValidKey(xs, key) ensures key in TableKeys(xs) {
        if key.group < n {
          assert xs[..n][key.group] == xs[key.group];
          assert ValidKey(xs[..n], key);
        } else {
          assert key in b;
        }
      }
    }
  }

  /** With distinct group names and distinct sample names within each
      group, no row repeats: two rows compare different pairs. */
  lemma TableDistinct(gs: seq<string>, xs: seq<Samples>, ttest: TTest)
    requires |gs| == |xs| && AllAligned(xs)
    requires forall a, b :: 0 <= a < b < |gs| ==> gs[a] != gs[b]
    requires forall k, a, b :: 0 <= k < |xs| && 0 <= a < b < |xs[k].names| ==> xs[k].names[a] != xs[k].names[b]
    ensures forall a, b :: 0 <= a < b < |Table(gs, xs, ttest)| ==> Table(gs, xs, ttest)[a] != Table(gs, xs, ttest)[b]
  {
    TableSpec(gs, xs, ttest);
    var ks := TableKeys(xs);
    var ts := Table(gs, xs, ttest);
    forall a, b | 0 <= a < b < |ts| ensures ts[a] != ts[b] {
      var p, q := ks[a], ks[b];
      assert KeyLt(p, q);
      if p.group != q.group {
        assert ts[a].group == gs[p.group] != gs[q.group] == ts[b].group;
      } else if p.i != q.i {
        assert ts[a].group1 == xs[p.group].names[p.i] != xs[p.group].names[q.i] == ts[b].group1;
      } else {
        assert ts[a].group2 == xs[p.group].names[p.j] != xs[p.group].names[q.j] == ts[b].group2;
      }
    }
  }

  /** Strictly increasing keys are distinct, so there are as many as the
      set they form. */
  lemma {:induction false} IncreasingCount(ks: seq<Key>)
    requires Increasing(ks)
    ensures |set m | 0 <= m < |ks| :: ks[m]| == |ks|
  {
    if ks != [] {
      var n := |ks| - 1;
      var init := ks[..n];
      assert Increasing(init);
      IncreasingCount(init);
      var all := set m | 0 <= m < |ks| :: ks[m];
      var lower := set m | 0 <= m < n :: init[m];
      assert all == lower + {ks[n]};
      assert ks[n] !in lower by {
        forall m | 0 <= m < n ensures init[m] != ks[n] {
          assert KeyLt(ks[m], ks[n]);
        }
      }
    }
  }

  /** The tested pairs of the groups `xs`, as keys. */
  function TestedPairs(xs: seq<Samples>): set<Key>
    requires AllAligned(xs)
  {
    set k, i, j | 0 <= k < |xs| && 0 <= i < j < |xs[k].names| && Enough(xs[k], i, j) :: Key(k, i, j)
  }

  lemma KeySetIsTested(xs: seq<Samples>, ks: seq<Key>)
    requires AllAligned(xs)
    requires forall m :: 0 <= m < |ks| ==> ValidKey(xs, ks[m])
    requires forall key :: ValidKey(xs, key) ==> key in ks
    ensures (set m | 0 <= m < |ks| :: ks[m]) == TestedPairs(xs)
  {
    var elems := set m | 0 <= m < |ks| :: ks[m];
    forall key | key in TestedPairs(xs) ensures key in elems {
      var k, i, j :| 0 <= k < |xs| && 0 <= i < j < |xs[k].names| && Enough(xs[k], i, j) && key == Key(k, i, j);
      assert ValidKey(xs, key);
      var m :| 0 <= m < |ks| && ks[m] == key;
    }
    forall key | key in elems ensures key in TestedPairs(xs) {
      var m :| 0 <= m < |ks| && ks[m] == key;
      assert ValidKey(xs, ks[m]);
      assert key == Key(key.group, key.i, key.j);
    }
  }

  /** The table has one row per tested pair of a group. */
  lemma TableCount(gs: seq<string>, xs: seq<Samples>, ttest: TTest)
    requires |gs| == |xs| && AllAligned(xs)
    ensures |Table(gs, xs, ttest)| == |TestedPairs(xs)|
  {
    TableSpec(gs, xs, ttest);
    var ks := TableKeys(xs);
    IncreasingCount(ks);
    KeySetIsTested(xs, ks);
  }
}
