/** mplib/bar_w_stats.py: the summary records and pairwise comparisons of a
    wide sheet (groups in the leading column, one attribute per other
    column), and the vertical stacking of the significance marks above the
    grouped bars. The t-test is the parameter `ttest`; means are exact
    rational means; the standard deviation column is not modelled. */
module BarStats {
  import opened Wrappers
  import opened Frames
  import opened Significance
  import opened Comparisons
  import opened BarPositions
  import opened GlyphGeometry

  // ---------------------------------------------------------------------
  // Summary records

  function Sum(v: seq<real>): real {
    if v == [] then 0.0 else Sum(v[..|v| - 1]) + v[|v| - 1]
  }

  function Mean(v: seq<real>): real
    requires |v| > 0
  {
    Sum(v) / |v| as real
  }

  /** A summary record: group, attribute, mean (`None` for NaN) and count. */
  datatype Record = Record(group: string, attribute: string, mean: Option<real>, count: nat)

  /** The record of group `g` and column `c`: the mean and count of the
      column's present values on the group's rows, or NaN and 0 when there
      are none. */
  function RecordFor(s: Sheet, g: string, c: nat): Record
    requires WellFormed(s) && c < |s.columns|
  {
    var v := GroupValues(s, g, c);
    if |v| > 0 then Record(g, s.columns[c].name, Some(Mean(v)), |v|)
    else Record(g, s.columns[c].name, None, 0)
  }

  /** The records of group `g` for the first `n` columns. */
  function GroupRecords(s: Sheet, g: string, n: nat): (r: seq<Record>)
    requires WellFormed(s) && n <= |s.columns|
    ensures |r| == n
  {
    if n == 0 then [] else GroupRecords(s, g, n - 1) + [RecordFor(s, g, n - 1)]
  }

  /** The records of the groups `gs`, group after group. */
  function SummaryOf(s: Sheet, gs: seq<string>): (r: seq<Record>)
    requires WellFormed(s)
  {
    if gs == [] then []
    else SummaryOf(s, gs[..|gs| - 1]) + GroupRecords(s, gs[|gs| - 1], |s.columns|)
  }

  /** The summary table: one record per group (first-appearance order) and
      data column (sheet order). */
  function Summary(s: Sheet): seq<Record>
    requires WellFormed(s)
  {
    SummaryOf(s, Groups(s.lead))
  }

  /** `calculate_summary_statistics`. */
  method CalculateSummaryStatistics(s: Sheet) returns (records: seq<Record>)
    requires WellFormed(s)
    ensures records == Summary(s)
  {
    var groups := Groups(s.lead);
    records := [];
    for k := 0 to |groups|
      invariant records == SummaryOf(s, groups[..k])
    {
      var g := groups[k];
      assert groups[..k + 1][..k] == groups[..k];
      ghost var before := records;
      for c := 0 to |s.columns|
        invariant records == before + GroupRecords(s, g, c)
      {
        var values := GroupValues(s, g, c);
        if |values| > 0 {
          records := records + [Record(g, s.columns[c].name, Some(Mean(values)), |values|)];
        } else {
          records := records + [Record(g, s.columns[c].name, None, 0)];
        }
      }
    }
    assert groups[..|groups|] == groups;
  }

  lemma {:induction false} GroupRecordsAt(s: Sheet, g: string, n: nat, c: nat)
    requires WellFormed(s) && c < n <= |s.columns|
    ensures GroupRecords(s, g, n)[c] == RecordFor(s, g, c)
  {
    if c < n - 1 { GroupRecordsAt(s, g, n - 1, c); }
  }

  lemma {:induction false} SummaryOfLength(s: Sheet, gs: seq<string>)
    requires WellFormed(s)
    ensures |SummaryOf(s, gs)| == |gs| * |s.columns|
  {
    if gs != [] {
      SummaryOfLength(s, gs[..|gs| - 1]);
      MulSucc(|gs| - 1, |s.columns|);
    }
  }

  /** The table has exactly one record per (group, column), group by group:
      the record of the `k`-th group and the `c`-th column is at
      `k * columns + c`. */
  lemma {:induction false} SummaryOfAt(s: Sheet, gs: seq<string>, k: nat, c: nat)
    requires WellFormed(s) && k < |gs| && c < |s.columns|
    ensures |SummaryOf(s, gs)| == |gs| * |s.columns|
    ensures k * |s.columns| + c < |SummaryOf(s, gs)|
    ensures SummaryOf(s, gs)[k * |s.columns| + c] == RecordFor(s, gs[k], c)
  {
    var n := |s.columns|;
    var init := gs[..|gs| - 1];
    SummaryOfLength(s, gs);
    SummaryOfLength(s, init);
    var a := SummaryOf(s, init);
    var b := GroupRecords(s, gs[|gs| - 1], n);
    assert SummaryOf(s, gs) == a + b;
    var at := k * n + c;
    if k < |init| {
      RowBlock(k, |init|, n, c);
      SummaryOfAt(s, init, k, c);
      assert init[k] == gs[k];
      assert (a + b)[at] == a[at];
    } else {
      assert |a| == k * n;
      GroupRecordsAt(s, gs[k], n, c);
      assert (a + b)[at] == b[c];
    }
  }

  /** In the summary itself. */
  lemma SummaryAt(s: Sheet, k: nat, c: nat)
    requires WellFormed(s) && k < |Groups(s.lead)| && c < |s.columns|
    ensures |Summary(s)| == |Groups(s.lead)| * |s.columns|
    ensures k * |s.columns| + c < |Summary(s)|
    ensures Summary(s)[k * |s.columns| + c] == RecordFor(s, Groups(s.lead)[k], c)
  {
    SummaryOfAt(s, Groups(s.lead), k, c);
  }

  lemma {:induction false} SumBounds(v: seq<real>, lo: real, hi: real)
    requires forall k :: 0 <= k < |v| ==> lo <= v[k] <= hi
    ensures |v| as real * lo <= Sum(v) <= |v| as real * hi
  {
    if v != [] {
      SumBounds(v[..|v| - 1], lo, hi);
      assert v[|v| - 1] == v[|v| - 1];
    }
  }

  /** A mean lies between any bounds of its values. */
  lemma MeanBounds(v: seq<real>, lo: real, hi: real)
    requires |v| > 0
    requires forall k :: 0 <= k < |v| ==> lo <= v[k] <= hi
    ensures lo <= Mean(v) <= hi
  {
    SumBounds(v, lo, hi);
    QuotientBounds(Sum(v), |v| as real, lo, hi);
  }

  lemma QuotientBounds(x: real, n: real, lo: real, hi: real)
    requires n > 0.0 && n * lo <= x <= n * hi
    ensures lo <= x / n <= hi
  {
    assert (x / n - lo) * n == x - n * lo;
    assert (hi - x / n) * n == n * hi - x;
  }

  /** Each record counts the non-missing cells of its column on its group's
      rows (never more than the group has rows); the count is 0 exactly when
      the mean is NaN, and a present mean lies within the values' bounds. */
  lemma RecordSpec(s: Sheet, g: string, c: nat, lo: real, hi: real)
    requires WellFormed(s) && c < |s.columns|
    requires forall x :: x in GroupValues(s, g, c) ==> lo <= x <= hi
    ensures var r := RecordFor(s, g, c);
            && r.group == g && r.attribute == s.columns[c].name
            && r.count == |GroupValues(s, g, c)| <= RowCount(s.lead, g)
            && r.count == |set row | 0 <= row < |s.lead| && s.lead[row] == Some(g) && s.columns[c].cells[row].Some?|
            && (r.count == 0 <==> r.mean.None?)
            && (r.mean.Some? ==> lo <= r.mean.value <= hi)
  {
    var v := GroupValues(s, g, c);
    SelectSpec(s.lead, s.columns[c].cells, g);
    if |v| > 0 {
      assert forall k :: 0 <= k < |v| ==> v[k] in v;
      MeanBounds(v, lo, hi);
    }
  }

  // ---------------------------------------------------------------------
  // Pairwise comparisons

  /** The attributes of group `g` with their values, in column order. */
  function ColumnSamples(s: Sheet, g: string): (x: Samples)
    requires WellFormed(s)
    ensures Aligned(x) && |x.names| == |s.columns|
    ensures forall c :: 0 <= c < |s.columns| ==> x.names[c] == s.columns[c].name && x.values[c] == GroupValues(s, g, c)
  {
    Samples(seq(|s.columns|, c requires 0 <= c < |s.columns| => s.columns[c].name),
            seq(|s.columns|, c requires 0 <= c < |s.columns| => GroupValues(s, g, c)))
  }

  function AllTests(s: Sheet, gs: seq<string>, ttest: TTest): seq<RawTest>
    requires WellFormed(s)
  {
    if gs == [] then []
    else AllTests(s, gs[..|gs| - 1], ttest) + GroupTests(gs[|gs| - 1], ColumnSamples(s, gs[|gs| - 1]), |s.columns|, ttest)
  }

  /** The comparisons before correction; none with fewer than two
      attributes. */
  function RawTests(s: Sheet, ttest: TTest): seq<RawTest>
    requires WellFormed(s)
  {
    if |s.columns| < 2 then [] else AllTests(s, Groups(s.lead), ttest)
  }

  /** `perform_tukey_hsd` of the wide sheet. */
  function Tukey(s: Sheet, ttest: TTest): seq<TestResult>
    requires WellFormed(s)
  {
    Corrected(RawTests(s, ttest))
  }

  method PerformTukeyHsd(s: Sheet, ttest: TTest) returns (r: seq<TestResult>)
    requires WellFormed(s)
    ensures r == Tukey(s, ttest)
  {
    if |s.columns| < 2 {
      return [];
    }
    var groups := Groups(s.lead);
    var raw: seq<RawTest> := [];
    for k := 0 to |groups|
      invariant raw == AllTests(s, groups[..k], ttest)
    {
      assert groups[..k + 1][..k] == groups[..k];
      raw := GroupPass(groups[k], ColumnSamples(s, groups[k]), ttest, raw);
    }
    assert groups[..|groups|] == groups;
    r := ApplyCorrection(raw);
  }

  /** With fewer than two attributes there is nothing to compare. */
  lemma FewColumnsNoTests(s: Sheet, ttest: TTest)
    requires WellFormed(s) && |s.columns| < 2
    ensures Tukey(s, ttest) == []
  {
  }

  /** The row recorded for columns `i` and `j` of group `g`. */
  function TestFor(s: Sheet, g: string, i: nat, j: nat, ttest: TTest): (t: RawTest)
    requires WellFormed(s) && i < |s.columns| && j < |s.columns|
    ensures t == TestOf(g, ColumnSamples(s, g), i, j, ttest)
  {
    RawTest(g, s.columns[i].name, s.columns[j].name, ttest(GroupValues(s, g, i), GroupValues(s, g, j)))
  }

  /** Both columns have at least two values in the group. */
  predicate Tested(s: Sheet, g: string, i: nat, j: nat)
    requires WellFormed(s) && i < |s.columns| && j < |s.columns|
  {
    |GroupValues(s, g, i)| >= 2 && |GroupValues(s, g, j)| >= 2
  }

  lemma {:induction false} AllTestsSpec(s: Sheet, gs: seq<string>, ttest: TTest)
    requires WellFormed(s)
    ensures forall g, i, j :: g in gs && 0 <= i < j < |s.columns| && Tested(s, g, i, j) ==>
              TestFor(s, g, i, j, ttest) in AllTests(s, gs, ttest)
    ensures forall t :: t in AllTests(s, gs, ttest) ==>
              exists g, i, j :: g in gs && 0 <= i < j < |s.columns| && Tested(s, g, i, j) && t == TestFor(s, g, i, j, ttest)
  {
    if gs != [] {
      var init := gs[..|gs| - 1];
      var g := gs[|gs| - 1];
      AllTestsSpec(s, init, ttest);
      GroupTestsSpec(g, ColumnSamples(s, g), |s.columns|, ttest);
      assert gs == init + [g];
      forall t | t in GroupTests(g, ColumnSamples(s, g), |s.columns|, ttest)
        ensures exists i, j :: 0 <= i < j < |s.columns| && Tested(s, g, i, j) && t == TestFor(s, g, i, j, ttest)
      {
        var i, j :| 0 <= i < j < |s.columns| && Enough(ColumnSamples(s, g), i, j) &&
                    t == TestOf(g, ColumnSamples(s, g), i, j, ttest);
        assert t == TestFor(s, g, i, j, ttest);
      }
    }
  }

  /** With distinct headers, the table has a row for a group of the sheet
      and columns `i < j` exactly when both columns have at least two values
      in that group, and it has no other rows: every row compares two
      columns of one group in sheet order. */
  lemma TukeyMembers(s: Sheet, ttest: TTest)
    requires WellFormed(s) && DistinctNames(s.columns)
    ensures forall g, i, j :: Some(g) in s.lead && 0 <= i < j < |s.columns| ==>
              (TestFor(s, g, i, j, ttest) in RawTests(s, ttest) <==> Tested(s, g, i, j))
    ensures forall t :: t in RawTests(s, ttest) ==>
              exists g, i, j :: Some(g) in s.lead && 0 <= i < j < |s.columns| && Tested(s, g, i, j) &&
                                t == TestFor(s, g, i, j, ttest)
  {
    GroupsSpec(s.lead);
    AllTestsSpec(s, Groups(s.lead), ttest);
    forall g, i, j | Some(g) in s.lead && 0 <= i < j < |s.columns| && TestFor(s, g, i, j, ttest) in RawTests(s, ttest)
      ensures Tested(s, g, i, j)
    {
      var t := TestFor(s, g, i, j, ttest);
      var g', i', j' :| g' in Groups(s.lead) && 0 <= i' < j' < |s.columns| && Tested(s, g', i', j') &&
                        t == TestFor(s, g', i', j', ttest);
      NamesDetermine(s.columns, i, i');
      NamesDetermine(s.columns, j, j');
    }
  }

  lemma NamesDetermine(cols: seq<Column>, a: nat, b: nat)
    requires DistinctNames(cols) && a < |cols| && b < |cols| && cols[a].name == cols[b].name
    ensures a == b
  {
  }

  /** The samples of the groups `gs`, one per group. */
  function SamplesOf(s: Sheet, gs: seq<string>): (xs: seq<Samples>)
    requires WellFormed(s)
    ensures |xs| == |gs| && AllAligned(xs)
    ensures forall k :: 0 <= k < |gs| ==> xs[k] == ColumnSamples(s, gs[k])
  {
    if gs == [] then [] else SamplesOf(s, gs[..|gs| - 1]) + [ColumnSamples(s, gs[|gs| - 1])]
  }

  lemma {:induction false} AllTestsTable(s: Sheet, gs: seq<string>, ttest: TTest)
    requires WellFormed(s)
    ensures AllTests(s, gs, ttest) == Table(gs, SamplesOf(s, gs), ttest)
  {
    if gs != [] {
      var n := |gs| - 1;
      AllTestsTable(s, gs[..n], ttest);
      assert SamplesOf(s, gs)[..n] == SamplesOf(s, gs[..n]);
    }
  }

  /** The position of every row of the table: its group's index in the
      group order and the indices of its two columns. */
  function TukeyKeys(s: Sheet): seq<Key>
    requires WellFormed(s)
  {
    if |s.columns| < 2 then [] else TableKeys(SamplesOf(s, Groups(s.lead)))
  }

  /** Row `m` of the table compares the columns `i < j` of the group at
      index `k` of `TukeyKeys(s)[m] == Key(k, i, j)`, a pair with two values
      on both sides; the keys ascend in (group, i, j) order, so a row that
      comes earlier compares an earlier group, or an earlier first column,
      or an earlier second column. With distinct headers no row repeats,
      and the table has exactly one row per tested (group, i, j), which is
      the `n_tests` of the correction. */
  lemma TukeyOrder(s: Sheet, ttest: TTest)
    requires WellFormed(s)
    ensures |RawTests(s, ttest)| == |TukeyKeys(s)|
    ensures Increasing(TukeyKeys(s))
    ensures forall m :: 0 <= m < |TukeyKeys(s)| ==>
              var key := TukeyKeys(s)[m];
              && key.group < |Groups(s.lead)| && key.i < key.j < |s.columns|
              && Tested(s, Groups(s.lead)[key.group], key.i, key.j)
              && RawTests(s, ttest)[m] == TestFor(s, Groups(s.lead)[key.group], key.i, key.j, ttest)
    ensures |RawTests(s, ttest)| ==
            |set k, i, j | 0 <= k < |Groups(s.lead)| && 0 <= i < j < |s.columns| &&
                           Tested(s, Groups(s.lead)[k], i, j) :: Key(k, i, j)|
    ensures DistinctNames(s.columns) ==>
              forall a, b :: 0 <= a < b < |RawTests(s, ttest)| ==> RawTests(s, ttest)[a] != RawTests(s, ttest)[b]
  {
    TukeyListed(s, ttest);
    TukeyCount(s, ttest);
    if DistinctNames(s.columns) && |s.columns| >= 2 {
      var gs := Groups(s.lead);
      AllTestsTable(s, gs, ttest);
      TableDistinct(gs, SamplesOf(s, gs), ttest);
    }
  }

  lemma TukeyListed(s: Sheet, ttest: TTest)
    requires WellFormed(s)
    ensures |RawTests(s, ttest)| == |TukeyKeys(s)|
    ensures Increasing(TukeyKeys(s))
    ensures forall m :: 0 <= m < |TukeyKeys(s)| ==>
              var key := TukeyKeys(s)[m];
              && key.group < |Groups(s.lead)| && key.i < key.j < |s.columns|
              && Tested(s, Groups(s.lead)[key.group], key.i, key.j)
              && RawTests(s, ttest)[m] == TestFor(s, Groups(s.lead)[key.group], key.i, key.j, ttest)
  {
    if |s.columns| >= 2 {
      var gs := Groups(s.lead);
      var xs := SamplesOf(s, gs);
      AllTestsTable(s, gs, ttest);
      TableSpec(gs, xs, ttest);
      var ks := TableKeys(xs);
      forall m | 0 <= m < |ks|
        ensures && ks[m].group < |gs| && ks[m].i < ks[m].j < |s.columns|
                && Tested(s, gs[ks[m].group], ks[m].i, ks[m].j)
                && RawTests(s, ttest)[m] == TestFor(s, gs[ks[m].group], ks[m].i, ks[m].j, ttest)
      {
        assert ValidKey(xs, ks[m]);
        assert xs[ks[m].group] == ColumnSamples(s, gs[ks[m].group]);
      }
    }
  }

  lemma TukeyCount(s: Sheet, ttest: TTest)
    requires WellFormed(s)
    ensures |RawTests(s, ttest)| ==
            |set k, i, j | 0 <= k < |Groups(s.lead)| && 0 <= i < j < |s.columns| &&
                           Tested(s, Groups(s.lead)[k], i, j) :: Key(k, i, j)|
  {
    var gs := Groups(s.lead);
    if |s.columns| < 2 {
      NoTestedKeys(s, gs);
    } else {
      AllTestsTable(s, gs, ttest);
      TableCount(gs, SamplesOf(s, gs), ttest);
      TestedKeys(s, gs);
    }
  }

  /** A tested pair needs two columns. */
  lemma NoTestedKeys(s: Sheet, gs: seq<string>)
    requires WellFormed(s)
    ensures (set k, i, j | 0 <= k < |gs| && 0 <= i < j < |s.columns| && Tested(s, gs[k], i, j) :: Key(k, i, j)) != {} ==>
            |s.columns| >= 2
  {
    var tested := set k, i, j | 0 <= k < |gs| && 0 <= i < j < |s.columns| && Tested(s, gs[k], i, j) :: Key(k, i, j);
    if tested != {} {
      var key :| key in tested;
    }
  }

  /** Group `k`'s samples have enough values exactly when the sheet's pair is tested. */
  lemma EnoughIsTested(s: Sheet, gs: seq<string>, k: nat, i: nat, j: nat)
    requires WellFormed(s) && k < |gs| && i < |s.columns| && j < |s.columns|
    ensures |SamplesOf(s, gs)[k].names| == |s.columns|
    ensures Enough(SamplesOf(s, gs)[k], i, j) <==> Tested(s, gs[k], i, j)
  {
    var x := SamplesOf(s, gs)[k];
    assert x == ColumnSamples(s, gs[k]);
    assert x.values[i] == GroupValues(s, gs[k], i) && x.values[j] == GroupValues(s, gs[k], j);
  }

  lemma TestedKeys(s: Sheet, gs: seq<string>)
    requires WellFormed(s)
    ensures TestedPairs(SamplesOf(s, gs)) ==
            (set k, i, j | 0 <= k < |gs| && 0 <= i < j < |s.columns| && Tested(s, gs[k], i, j) :: Key(k, i, j))
  {
    var xs := SamplesOf(s, gs);
    var tested := set k, i, j | 0 <= k < |gs| && 0 <= i < j < |s.columns| && Tested(s, gs[k], i, j) :: Key(k, i, j);
    forall key | key in TestedPairs(xs) ensures key in tested {
      var k, i, j :| 0 <= k < |xs| && 0 <= i < j < |xs[k].names| && Enough(xs[k], i, j) && key == Key(k, i, j);
      EnoughIsTested(s, gs, k, i, j);
    }
    forall key | key in tested ensures key in TestedPairs(xs) {
      var k, i, j :| 0 <= k < |gs| && 0 <= i < j < |s.columns| && Tested(s, gs[k], i, j) && key == Key(k, i, j);
      EnoughIsTested(s, gs, k, i, j);
    }
  }

  /** Every reported row is `min(p * n, 1)` for the total number `n` of
      rows over all groups, with its symbol from the five-level table. */
  lemma TukeyCorrection(s: Sheet, ttest: TTest)
    requires WellFormed(s)
    ensures |Tukey(s, ttest)| == |RawTests(s, ttest)|
    ensures forall k :: 0 <= k < |Tukey(s, ttest)| ==>
              CorrectRow(Tukey(s, ttest)[k], RawTests(s, ttest)[k], |RawTests(s, ttest)|)
  {
    CorrectedSpec(RawTests(s, ttest));
  }

  // ---------------------------------------------------------------------
  // Significance marks above the bars

  /** `y_range`, falling back to 1 when the bars span no height. */
  function YRange(yMax: real, yMin: real): (r: real)
    ensures r > 0.0
    ensures yMax - yMin > 0.0 ==> r == yMax - yMin
    ensures yMax - yMin <= 0.0 ==> r == 1.0
  {
    if yMax - yMin > 0.0 then yMax - yMin else 1.0
  }

  /** `asterisk_height_data`: twice the height of half the tick font,
      converted to data units through the figure height in inches. The
      tick size is `rcParams["ytick.labelsize"]`; a named size such as
      matplotlib's default "medium" cannot be multiplied by 0.5, so the
      Python code raises `TypeError` there (`None`). Otherwise the height
      is the full tick size in points, as a fraction of the figure height,
      scaled to the data range. */
  function AsteriskHeight(tickLabelSize: RcValue, yRange: real, figHeightIn: real): (h: Option<real>)
    requires figHeightIn != 0.0
    ensures h.None? <==> tickLabelSize.Named?
    ensures h.Some? ==> h.value * 72.0 * figHeightIn == tickLabelSize.size * yRange
    ensures h.Some? && tickLabelSize.size > 0.0 && yRange > 0.0 && figHeightIn > 0.0 ==> h.value > 0.0
  {
    match tickLabelSize
    case Named(_) => None
    case Points(size) => Some((size * 0.5 / 72.0) * (yRange / figHeightIn) * 2.0)
  }

  /** What one drawn comparison adds: a dash rectangle (left, bottom, width,
      height) or a text at (x, y). */
  datatype Mark = DashRect(left: real, bottom: real, width: real, height: real)
                | Text(x: real, y: real, symbol: string)

  /** A drawn comparison: the bar from `x1` to `x2` at `yBar`, its tips
      ending at `tipY`, and its mark. */
  datatype Drawn = Drawn(x1: real, x2: real, yBar: real, tipY: real, mark: Mark)

  /** The loop state: what was drawn, `current_y_offset`, `max_y_used`. */
  datatype Marks = Marks(drawn: seq<Drawn>, offset: real, maxUsed: real)

  /** The table the loop walks: the groups and attributes in plot order,
      the bar width and the asterisk height. */
  datatype Plot = Plot(groups: seq<Option<string>>, attributes: seq<string>, barWidth: real, h: real)

  /** The top of a mark, as used for `max_y_used`. */
  function MarkTop(m: Mark, h: real): real {
    match m
    case DashRect(_, bottom, _, height) => bottom + height
    case Text(_, y, _) => y + h
  }

  /** The row passes both lookups. */
  predicate Found(row: TestResult, pl: Plot) {
    Some(row.group) in pl.groups && row.group1 in pl.attributes && row.group2 in pl.attributes
  }

  /** The drawing of a row that passes the lookups, at the current offset. */
  function DrawRow(row: TestResult, pl: Plot, yBar: real): Drawn
    requires Found(row, pl)
  {
    var gi := IndexOf(pl.groups, Some(row.group)).value;
    var n := |pl.attributes|;
    var x1 := BarX(gi as real, IndexOf(pl.attributes, row.group1).value, n, pl.barWidth);
    var x2 := BarX(gi as real, IndexOf(pl.attributes, row.group2).value, n, pl.barWidth);
    var v := pl.h * 0.5;
    var center := (x1 + x2) / 2.0;
    var mark := if row.significance == "-"
                then DashRect(center - pl.barWidth * 0.1 / 2.0, yBar + v, pl.barWidth * 0.1, pl.h * 0.33)
                else Text(center, yBar + v, row.significance);
    Drawn(x1, x2, yBar, yBar - v, mark)
  }

  /** One loop iteration. */
  function MarkStep(st: Marks, row: TestResult, pl: Plot): Marks {
    if !Found(row, pl) then st
    else
      var d := DrawRow(row, pl, st.offset);
      Marks(st.drawn + [d], st.offset + pl.h * 1.5, Max(st.maxUsed, MarkTop(d.mark, pl.h)))
  }

  function Max(a: real, b: real): real {
    if a >= b then a else b
  }

  function RunMarks(rows: seq<TestResult>, pl: Plot, start: real): Marks {
    if rows == [] then Marks([], start, start)
    else MarkStep(RunMarks(rows[..|rows| - 1], pl, start), rows[|rows| - 1], pl)
  }

  /** `_add_significance_annotations`: the drawn marks and the returned
      `max_y_used`, or the `TypeError` raised before the loop when the tick
      size is named. `yMax` and `yMin` are the summary's `max(mean + sd)`
      and `min(mean)`. */
  method AddSignificanceAnnotations(rows: seq<TestResult>, groups: seq<Option<string>>,
                                    attributes: seq<string>, barWidth: real,
                                    yMax: real, yMin: real, tickLabelSize: RcValue, figHeightIn: real)
    returns (r: Result<(seq<Drawn>, real), string>)
    requires figHeightIn != 0.0
    ensures r.Err? <==> tickLabelSize.Named?
    ensures r.Ok? ==>
              var pl := Plot(groups, attributes, barWidth,
                             AsteriskHeight(tickLabelSize, YRange(yMax, yMin), figHeightIn).value);
              r.value == (RunMarks(rows, pl, yMax + pl.h).drawn, RunMarks(rows, pl, yMax + pl.h).maxUsed)
  {
    var yRange := YRange(yMax, yMin);
    var height := AsteriskHeight(tickLabelSize, yRange, figHeightIn);
    if height.None? {
      return Err("TypeError");
    }
    var pl := Plot(groups, attributes, barWidth, height.value);
    var drawn, maxYUsed := DrawMarks(rows, pl, yMax);
    r := Ok((drawn, maxYUsed));
  }

  /** The loop of `_add_significance_annotations`, from `y_max + h`. */
  method DrawMarks(rows: seq<TestResult>, pl: Plot, yMax: real)
    returns (drawn: seq<Drawn>, maxYUsed: real)
    ensures drawn == RunMarks(rows, pl, yMax + pl.h).drawn
    ensures maxYUsed == RunMarks(rows, pl, yMax + pl.h).maxUsed
  {
    var currentYOffset := yMax + pl.h;
    maxYUsed := currentYOffset;
    drawn := [];
    for k := 0 to |rows|
      invariant Marks(drawn, currentYOffset, maxYUsed) == RunMarks(rows[..k], pl, yMax + pl.h)
    {
      assert rows[..k + 1][..k] == rows[..k];
      var row := rows[k];
      if Some(row.group) in pl.groups && row.group1 in pl.attributes && row.group2 in pl.attributes {
        var d := DrawRow(row, pl, currentYOffset);
        drawn := drawn + [d];
        if row.significance == "-" {
          maxYUsed := Max(maxYUsed, d.mark.bottom + d.mark.height);
        } else {
          maxYUsed := Max(maxYUsed, d.mark.y + pl.h);
        }
        currentYOffset := currentYOffset + pl.h * 1.5;
      }
    }
    assert rows[..|rows|] == rows;
  }

  /** The number of rows passing both lookups. */
  function FoundCount(rows: seq<TestResult>, pl: Plot): nat {
    if rows == [] then 0
    else FoundCount(rows[..|rows| - 1], pl) + (if Found(rows[|rows| - 1], pl) then 1 else 0)
  }

  /** The invariant of the loop from start offset `start`: the offset has
      advanced by `1.5 h` per drawn mark; the `m`-th mark sits at
      `start + 1.5 h m` with its tips `h / 2` lower and its dash or text
      `h / 2` higher; `max_y_used` is at least the start and every mark
      top, and is the start or one of them. */
  predicate MarksInv(st: Marks, start: real, h: real) {
    Levels(st, start, h) && Covered(st, start, h)
  }

  predicate Levels(st: Marks, start: real, h: real) {
    && st.offset == start + 1.5 * h * |st.drawn| as real
    && (forall m :: 0 <= m < |st.drawn| ==> AtLevel(st.drawn[m], start + 1.5 * h * m as real, h))
  }

  predicate Covered(st: Marks, start: real, h: real) {
    && st.maxUsed >= start
    && (forall m :: 0 <= m < |st.drawn| ==> MarkTop(st.drawn[m].mark, h) <= st.maxUsed)
    && (st.maxUsed == start || exists m :: 0 <= m < |st.drawn| && st.maxUsed == MarkTop(st.drawn[m].mark, h))
  }

  /** A mark drawn at offset `y`. */
  predicate AtLevel(d: Drawn, y: real, h: real) {
    && d.yBar == y && d.tipY == y - h / 2.0
    && (match d.mark
        case DashRect(_, bottom, _, height) => bottom == y + h / 2.0 && height == 0.33 * h
        case Text(_, ty, _) => ty == y + h / 2.0)
  }

  /** A drawn row sits at the offset it was drawn at; a dash reaches
      `0.33 h` above the half-height gap, a text a full `h`. */
  lemma DrawRowSpec(row: TestResult, pl: Plot, y: real)
    requires Found(row, pl)
    ensures AtLevel(DrawRow(row, pl, y), y, pl.h)
    ensures MarkTop(DrawRow(row, pl, y).mark, pl.h) ==
            y + pl.h / 2.0 + (if row.significance == "-" then 0.33 * pl.h else pl.h)
    ensures DrawRow(row, pl, y).mark.DashRect? <==> row.significance == "-"
  {
  }

  lemma StepLevels(st: Marks, row: TestResult, pl: Plot, start: real)
    requires Levels(st, start, pl.h)
    ensures Levels(MarkStep(st, row, pl), start, pl.h)
  {
    if Found(row, pl) {
      var d := DrawRow(row, pl, st.offset);
      var n := |st.drawn|;
      var ds := st.drawn + [d];
      assert MarkStep(st, row, pl).drawn == ds;
      assert 1.5 * pl.h * (n + 1) as real == 1.5 * pl.h * n as real + 1.5 * pl.h;
      DrawRowSpec(row, pl, st.offset);
      forall m | 0 <= m < |ds| ensures AtLevel(ds[m], start + 1.5 * pl.h * m as real, pl.h) {
        if m < n { assert ds[m] == st.drawn[m]; }
      }
    }
  }

  lemma StepCovered(st: Marks, row: TestResult, pl: Plot, start: real)
    requires Covered(st, start, pl.h)
    ensures Covered(MarkStep(st, row, pl), start, pl.h)
  {
    if Found(row, pl) {
      var d := DrawRow(row, pl, st.offset);
      var n := |st.drawn|;
      var ds := st.drawn + [d];
      var nx := MarkStep(st, row, pl);
      assert nx.drawn == ds;
      assert nx.maxUsed == Max(st.maxUsed, MarkTop(d.mark, pl.h));
      forall m | 0 <= m < |ds| ensures MarkTop(ds[m].mark, pl.h) <= nx.maxUsed {
        if m < n { assert ds[m] == st.drawn[m]; }
      }
      if nx.maxUsed != start {
        if nx.maxUsed == MarkTop(d.mark, pl.h) {
          assert ds[n] == d;
        } else {
          var m :| 0 <= m < n && st.maxUsed == MarkTop(st.drawn[m].mark, pl.h);
          assert ds[m] == st.drawn[m];
        }
      }
    }
  }

  lemma MarkStepInv(st: Marks, row: TestResult, pl: Plot, start: real)
    requires MarksInv(st, start, pl.h)
    ensures MarksInv(MarkStep(st, row, pl), start, pl.h)
    ensures |MarkStep(st, row, pl).drawn| == |st.drawn| + (if Found(row, pl) then 1 else 0)
    ensures MarkStep(st, row, pl).drawn[..|st.drawn|] == st.drawn
  {
    StepLevels(st, row, pl, start);
    StepCovered(st, row, pl, start);
  }

  /** The whole loop: one mark per row that passes the lookups, in row
      order, the `m`-th at `start + 1.5 h m`; rows failing a lookup add
      nothing and do not advance the offset. */
  lemma {:induction false} RunMarksSpec(rows: seq<TestResult>, pl: Plot, start: real)
    ensures MarksInv(RunMarks(rows, pl, start), start, pl.h)
    ensures |RunMarks(rows, pl, start).drawn| == FoundCount(rows, pl)
  {
    if rows != [] {
      RunMarksSpec(rows[..|rows| - 1], pl, start);
      MarkStepInv(RunMarks(rows[..|rows| - 1], pl, start), rows[|rows| - 1], pl, start);
    }
  }

  /** The `m`-th mark is the drawing of the `m`-th row that passes the
      lookups, at the level `MarksInv` gives it. */
  lemma {:induction false} RunMarksRows(rows: seq<TestResult>, pl: Plot, start: real, k: nat)
    requires k < |rows| && Found(rows[k], pl)
    ensures FoundCount(rows[..k], pl) < |RunMarks(rows, pl, start).drawn|
    ensures var d := RunMarks(rows, pl, start).drawn[FoundCount(rows[..k], pl)];
            d == DrawRow(rows[k], pl, d.yBar)
  {
    var init := rows[..|rows| - 1];
    RunMarksSpec(init, pl, start);
    MarkStepInv(RunMarks(init, pl, start), rows[|rows| - 1], pl, start);
    if k == |rows| - 1 {
      assert init == rows[..k];
    } else {
      assert init[..k] == rows[..k] && init[k] == rows[k];
      RunMarksRows(init, pl, start, k);
      var before := RunMarks(init, pl, start).drawn;
      var idx := FoundCount(rows[..k], pl);
      assert RunMarks(rows, pl, start).drawn[..|before|][idx] == before[idx];
    }
  }

  /** The returned height starts at `y_max + h` and covers every mark; the
      final offset lies `1.5 h` above the start per drawn mark, one mark per
      row passing the lookups. */
  lemma AnnotationTop(rows: seq<TestResult>, pl: Plot, yMax: real)
    ensures var r := RunMarks(rows, pl, yMax + pl.h);
            && r.maxUsed >= yMax + pl.h
            && (forall m :: 0 <= m < |r.drawn| ==> MarkTop(r.drawn[m].mark, pl.h) <= r.maxUsed)
            && (r.maxUsed == yMax + pl.h ||
                exists m :: 0 <= m < |r.drawn| && r.maxUsed == MarkTop(r.drawn[m].mark, pl.h))
            && |r.drawn| == FoundCount(rows, pl)
            && Levels(r, yMax + pl.h, pl.h)
  {
    RunMarksSpec(rows, pl, yMax + pl.h);
  }
}
