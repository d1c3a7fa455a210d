/** stats_visualization.py: sheet-name parsing, file-name sanitising, the
    pairwise comparisons of the long (melted) table, the placement of the
    significance brackets and the tick positions under the bars. */
module StatsVis {
  import opened Wrappers
  import opened PyStr
  import opened Frames
  import opened Significance
  import opened Comparisons
  import opened BarPositions

  // ---------------------------------------------------------------------
  // Sheet names and file names

  /** `parse_sheet_name`: all tokens but the last, joined by single spaces,
      and the last token. A name without tokens makes `tokens[-1]` raise
      IndexError, modelled as `None`. */
  function ParseSheetName(sheetName: string): Option<(string, string)> {
    var tokens := Split(sheetName);
    if tokens == [] then None
    else Some((Join(" ", tokens[..|tokens| - 1]), tokens[|tokens| - 1]))
  }

  lemma {:induction false} JoinSnoc(xs: seq<string>, y: string)
    requires xs != []
    ensures Join(" ", xs + [y]) == Join(" ", xs) + " " + y
  {
    if |xs| > 1 {
      assert (xs + [y])[1..] == xs[1..] + [y];
      JoinSnoc(xs[1..], y);
    } else {
      assert (xs + [y])[1..] == [y];
    }
  }

  /** Splitting off the last of a run of tokens: the leading tokens joined
      split back into themselves, and with the last token added back after a
      space into all of them. */
  lemma SplitLast(tokens: seq<string>)
    requires tokens != []
    requires forall k :: 0 <= k < |tokens| ==> tokens[k] != [] && NoSpace(tokens[k])
    ensures Split(Join(" ", tokens[..|tokens| - 1])) == tokens[..|tokens| - 1]
    ensures Split(Join(" ", tokens[..|tokens| - 1]) + " " + tokens[|tokens| - 1]) == tokens
  {
    var n := |tokens| - 1;
    var init := tokens[..n];
    var last := tokens[n];
    forall k | 0 <= k < |init| ensures init[k] != [] && NoSpace(init[k]) {
      assert init[k] == tokens[k];
    }
    SplitJoin(init);
    if n == 0 {
      SplitSingle(last);
      var s := Join(" ", init) + " " + last;
      assert s == " " + last;
      assert s[1..] == last;
      assert Split(s) == Split(last);
      assert tokens == [last];
    } else {
      JoinSnoc(init, last);
      assert init + [last] == tokens;
      SplitJoin(tokens);
    }
  }

  /** The parse fails exactly for an all-whitespace name. Otherwise the
      figure label is one non-empty token without whitespace, the y label
      splits back into exactly the leading tokens, and joining the two with a
      space gives a string with the same tokens as the sheet name. */
  lemma ParseSheetNameSpec(sheetName: string)
    ensures ParseSheetName(sheetName).None? <==> forall k :: 0 <= k < |sheetName| ==> IsSpace(sheetName[k])
    ensures ParseSheetName(sheetName).Some? ==>
              var parsed := ParseSheetName(sheetName).value;
              && parsed.1 != [] && NoSpace(parsed.1)
              && Split(parsed.0) == Split(sheetName)[..|Split(sheetName)| - 1]
              && Split(parsed.0 + " " + parsed.1) == Split(sheetName)
  {
    SplitEmpty(sheetName);
    var tokens := Split(sheetName);
    if tokens != [] {
      SplitTokens(sheetName);
      SplitLast(tokens);
    }
  }

  /** The documented example: "Cell Count A" gives ("Cell Count", "A"). */
  lemma ParseSheetNameExample()
    ensures ParseSheetName("Cell Count A") == Some(("Cell Count", "A"))
  {
    var ws := ["Cell", "Count", "A"];
    ExampleTokens(ws);
    ParseJoined(ws);
    ExampleJoins(ws);
  }

  lemma ExampleTokens(ws: seq<string>)
    requires ws == ["Cell", "Count", "A"]
    ensures forall k :: 0 <= k < |ws| ==> ws[k] != [] && NoSpace(ws[k])
  {
    assert NoSpace("Cell") && NoSpace("Count") && NoSpace("A");
  }

  lemma ExampleJoins(ws: seq<string>)
    requires ws == ["Cell", "Count", "A"]
    ensures Join(" ", ws) == "Cell Count A"
    ensures ws[..|ws| - 1] == ["Cell", "Count"] && Join(" ", ws[..|ws| - 1]) == "Cell Count"
    ensures ws[|ws| - 1] == "A"
  {
    var front := ws[..|ws| - 1];
    assert front == ["Cell", "Count"] && front[1..] == ["Count"];
    assert Join(" ", front) == "Cell" + " " + "Count";
    assert ws[1..] == ["Count", "A"] && ws[1..][1..] == ["A"];
    assert Join(" ", ws[1..]) == "Count" + " " + "A";
    assert Join(" ", ws) == "Cell" + " " + ("Count" + " " + "A");
  }

  lemma ParseJoined(ws: seq<string>)
    requires ws != []
    requires forall k :: 0 <= k < |ws| ==> ws[k] != [] && NoSpace(ws[k])
    ensures ParseSheetName(Join(" ", ws)) == Some((Join(" ", ws[..|ws| - 1]), ws[|ws| - 1]))
  {
    SplitJoin(ws);
  }

  /** A character `\w` matches: ASCII letters, digits and the underscore,
      and any other non-whitespace character above U+007F (an
      approximation of Unicode letters and digits). */
  predicate IsWordChar(c: char) {
    ('a' <= c <= 'z') || ('A' <= c <= 'Z') || ('0' <= c <= '9') || c == '_'
    || (c > '\U{7F}' && !IsSpace(c))
  }

  predicate AllWord(s: string) {
    forall k :: 0 <= k < |s| ==> IsWordChar(s[k])
  }

  /** Drop the non-word characters at the front of `t`. */
  function SkipNonWord(t: string): (r: string)
    ensures |r| <= |t|
    ensures r == [] || IsWordChar(r[0])
  {
    if t != [] && !IsWordChar(t[0]) then SkipNonWord(t[1..]) else t
  }

  /** `re.sub(r"[\s\W]+", "_", t)`: every maximal run of whitespace or
      non-word characters becomes one underscore. Whitespace is itself
      non-word, so the class is that of the non-word characters. */
  function Substitute(t: string): (r: string)
    ensures |r| <= |t|
    ensures AllWord(r)
    decreases |t|
  {
    if t == [] then []
    else if IsWordChar(t[0]) then [t[0]] + Substitute(t[1..])
    else "_" + Substitute(SkipNonWord(t[1..]))
  }

  /** `sanitize_filename`. */
  function SanitizeFilename(name: string): string {
    Substitute(Strip(name))
  }

  lemma {:induction false} SubstituteWords(t: string)
    requires AllWord(t)
    ensures Substitute(t) == t
  {
    if t != [] {
      SubstituteWords(t[1..]);
      assert t == [t[0]] + t[1..];
    }
  }

  lemma WordNotSpace(c: char)
    requires IsWordChar(c)
    ensures !IsSpace(c)
  {
  }

  lemma WordsTrimmed(s: string)
    requires AllWord(s)
    ensures Strip(s) == s
  {
    if s != [] {
      WordNotSpace(s[0]);
      WordNotSpace(s[|s| - 1]);
    }
    StripTrimmed(s);
  }

  /** The result holds only word characters, is never longer than the
      name, and leaves a name of word characters unchanged; whitespace at
      the ends is stripped before the substitution, so it leaves no
      underscore there. */
  lemma SanitizeFilenameSpec(name: string)
    ensures AllWord(SanitizeFilename(name))
    ensures |SanitizeFilename(name)| <= |name|
    ensures AllWord(name) ==> SanitizeFilename(name) == name
    ensures SanitizeFilename(Strip(name)) == SanitizeFilename(name)
    ensures Trimmed(name) ==> SanitizeFilename(name) == Substitute(name)
  {
    StripSpec(name);
    StripIdempotent(name);
    if Trimmed(name) { StripTrimmed(name); }
    if AllWord(name) {
      WordsTrimmed(name);
      SubstituteWords(name);
    }
  }

  /** Sanitising twice changes nothing. */
  lemma SanitizeIdempotent(name: string)
    ensures SanitizeFilename(SanitizeFilename(name)) == SanitizeFilename(name)
  {
    var r := SanitizeFilename(name);
    WordsTrimmed(r);
    SubstituteWords(r);
  }

  /** No character of `s` is a word character. */
  predicate NoWord(s: string) {
    forall k :: 0 <= k < |s| ==> !IsWordChar(s[k])
  }

  /** Word characters are copied through one by one. */
  lemma {:induction false} SubstituteWordPrefix(w: string, t: string)
    requires AllWord(w)
    ensures Substitute(w + t) == w + Substitute(t)
  {
    if w == [] {
      assert w + t == t;
    } else {
      assert (w + t)[1..] == w[1..] + t;
      SubstituteWordPrefix(w[1..], t);
      assert w == [w[0]] + w[1..];
    }
  }

  lemma {:induction false} SkipNonWordRun(n: string, t: string)
    requires NoWord(n)
    requires t == [] || IsWordChar(t[0])
    ensures SkipNonWord(n + t) == t
  {
    if n == [] {
      assert n + t == t;
    } else {
      assert (n + t)[0] == n[0];
      assert (n + t)[1..] == n[1..] + t;
      SkipNonWordRun(n[1..], t);
    }
  }

  /** A maximal run of non-word characters, however long, becomes exactly
      one underscore. */
  lemma SubstituteNonWordRun(n: string, t: string)
    requires n != [] && NoWord(n)
    requires t == [] || IsWordChar(t[0])
    ensures Substitute(n + t) == "_" + Substitute(t)
  {
    assert (n + t)[0] == n[0];
    assert (n + t)[1..] == n[1..] + t;
    SkipNonWordRun(n[1..], t);
  }

  /** Two words separated by a run of spaces and punctuation come out
      joined by one underscore. */
  lemma SanitizeJoinsWords(a: string, n: string, b: string)
    requires a != [] && AllWord(a)
    requires n != [] && NoWord(n)
    requires b != [] && AllWord(b)
    ensures SanitizeFilename(a + n + b) == a + "_" + b
  {
    var s := a + (n + b);
    assert a + n + b == s;
    assert Strip(s) == s by {
      assert s[0] == a[0] && s[|s| - 1] == b[|b| - 1];
      WordNotSpace(a[0]);
      WordNotSpace(b[|b| - 1]);
      StripTrimmed(s);
    }
    assert Substitute(s) == a + Substitute(n + b) by {
      SubstituteWordPrefix(a, n + b);
    }
    assert Substitute(n + b) == "_" + b by {
      SubstituteNonWordRun(n, b);
      SubstituteWords(b);
    }
    assert a + ("_" + b) == a + "_" + b;
  }

  /** A run of punctuation and spaces inside a name becomes a single
      underscore. */
  lemma SanitizeExample()
    ensures SanitizeFilename("a / b") == "a_b"
  {
    assert !IsSpace('a') && !IsSpace('b');
    assert Strip("a / b") == "a / b" by {
      StripTrimmed("a / b");
    }
    assert SkipNonWord(" / b") == "b" by {
      assert " / b"[1..] == "/ b" && "/ b"[1..] == " b" && " b"[1..] == "b";
    }
    assert "a / b"[1..] == " / b";
    assert Substitute("b") == "b";
    assert Substitute(" / b") == "_" + Substitute("b");
  }

  // ---------------------------------------------------------------------
  // Pairwise comparisons on the long table

  /** The genotypes of group `g` (`group_data["Genotype"].unique()`) with
      their values. */
  function LongSamples(rows: seq<LongRow>, g: string): (x: Samples)
    ensures Aligned(x)
    ensures x.names == Unique(GenotypesOf(rows, g))
    ensures forall k :: 0 <= k < |x.names| ==> x.values[k] == LongValues(rows, g, x.names[k])
  {
    var gts := Unique(GenotypesOf(rows, g));
    Samples(gts, seq(|gts|, k requires 0 <= k < |gts| => LongValues(rows, g, gts[k])))
  }

  /** Each genotype that some row of `g` has is listed once, in the order
      of the first row that has it. */
  lemma LongSamplesSpec(rows: seq<LongRow>, g: string)
    ensures Distinct(LongSamples(rows, g).names)
    ensures forall n :: n in LongSamples(rows, g).names <==>
              exists r :: 0 <= r < |rows| && rows[r].lead == Some(g) && rows[r].genotype == n
    ensures forall a, b :: 0 <= a < b < |LongSamples(rows, g).names| ==>
              IndexOf(GenotypesOf(rows, g), LongSamples(rows, g).names[a]).value <
              IndexOf(GenotypesOf(rows, g), LongSamples(rows, g).names[b]).value
  {
    GenotypesOfMembers(rows, g);
    UniqueOrder(GenotypesOf(rows, g));
  }

  /** The rows of one group; a group with fewer than two genotypes is
      skipped. */
  function LongGroupTests(rows: seq<LongRow>, g: string, ttest: TTest): seq<RawTest> {
    var x := LongSamples(rows, g);
    if |x.names| < 2 then [] else GroupTests(g, x, |x.names|, ttest)
  }

  function LongAllTests(rows: seq<LongRow>, gs: seq<string>, ttest: TTest): seq<RawTest> {
    if gs == [] then []
    else LongAllTests(rows, gs[..|gs| - 1], ttest) + LongGroupTests(rows, gs[|gs| - 1], ttest)
  }

  /** The comparisons before correction, groups in first-appearance order. */
  function LongRawTests(rows: seq<LongRow>, ttest: TTest): seq<RawTest> {
    LongAllTests(rows, Groups(LeadsOf(rows)), ttest)
  }

  /** `perform_tukey_hsd` of the long table. */
  function LongTukey(rows: seq<LongRow>, ttest: TTest): seq<TestResult> {
    Corrected(LongRawTests(rows, ttest))
  }

  method PerformTukeyHsd(rows: seq<LongRow>, ttest: TTest) returns (r: seq<TestResult>)
    ensures r == LongTukey(rows, ttest)
  {
    var raw := LongTests(rows, Groups(LeadsOf(rows)), ttest);
    r := ApplyCorrection(raw);
  }

  /** The loop over the groups `groupby(..., sort=False)` yields. */
  method LongTests(rows: seq<LongRow>, groups: seq<string>, ttest: TTest) returns (raw: seq<RawTest>)
    ensures raw == LongAllTests(rows, groups, ttest)
  {
    raw := [];
    for k := 0 to |groups|
      invariant raw == LongAllTests(rows, groups[..k], ttest)
    {
      assert groups[..k + 1][..k] == groups[..k];
      raw := LongGroupPass(rows, groups[k], ttest, raw);
    }
    assert groups[..|groups|] == groups;
  }

  /** One group of the long table: its genotypes in order of appearance,
      skipped when there are fewer than two. */
  method LongGroupPass(rows: seq<LongRow>, g: string, ttest: TTest, acc: seq<RawTest>) returns (raw: seq<RawTest>)
    ensures raw == acc + LongGroupTests(rows, g, ttest)
  {
    var x := LongSamples(rows, g);
    if |x.names| < 2 {
      assert LongGroupTests(rows, g, ttest) == [];
      return acc;
    }
    raw := GroupPass(g, x, ttest, acc);
  }

  /** The raw rows of the groups `gs`: for each group, the pairs `i < j` of
      its genotypes with at least two values on both sides, and nothing
      else. */
  lemma {:induction false} LongAllTestsSpec(rows: seq<LongRow>, gs: seq<string>, ttest: TTest)
    ensures forall g, i, j :: g in gs && 0 <= i < j < |LongSamples(rows, g).names| && Enough(LongSamples(rows, g), i, j) ==>
              TestOf(g, LongSamples(rows, g), i, j, ttest) in LongAllTests(rows, gs, ttest)
    ensures forall t :: t in LongAllTests(rows, gs, ttest) ==>
              exists g, i, j :: g in gs && 0 <= i < j < |LongSamples(rows, g).names| &&
                                Enough(LongSamples(rows, g), i, j) && t == TestOf(g, LongSamples(rows, g), i, j, ttest)
  {
    if gs != [] {
      var init := gs[..|gs| - 1];
      var g := gs[|gs| - 1];
      var x := LongSamples(rows, g);
      LongAllTestsSpec(rows, init, ttest);
      GroupTestsSpec(g, x, |x.names|, ttest);
      assert gs == init + [g];
    }
  }

  /** The genotypes of a group are distinct, so a row names its pair; the
      table has a row for genotypes `i < j` of a group exactly when both have
      at least two values there, and a row's group and genotypes always come
      from one group of the table. */
  lemma LongTukeyMembers(rows: seq<LongRow>, ttest: TTest)
    ensures forall g, i, j :: Some(g) in LeadsOf(rows) && 0 <= i < j < |LongSamples(rows, g).names| ==>
              (TestOf(g, LongSamples(rows, g), i, j, ttest) in LongRawTests(rows, ttest) <==>
               Enough(LongSamples(rows, g), i, j))
    ensures forall t :: t in LongRawTests(rows, ttest) ==>
              exists g, i, j :: Some(g) in LeadsOf(rows) && 0 <= i < j < |LongSamples(rows, g).names| &&
                                Enough(LongSamples(rows, g), i, j) && t == TestOf(g, LongSamples(rows, g), i, j, ttest)
  {
    var gs := Groups(LeadsOf(rows));
    GroupsSpec(LeadsOf(rows));
    LongAllTestsSpec(rows, gs, ttest);
    forall g, i, j | Some(g) in LeadsOf(rows) && 0 <= i < j < |LongSamples(rows, g).names| &&
                     TestOf(g, LongSamples(rows, g), i, j, ttest) in LongRawTests(rows, ttest)
      ensures Enough(LongSamples(rows, g), i, j)
    {
      var x := LongSamples(rows, g);
      var g', i', j' :| g' in gs && 0 <= i' < j' < |LongSamples(rows, g').names| &&
                        Enough(LongSamples(rows, g'), i', j') &&
                        TestOf(g, x, i, j, ttest) == TestOf(g', LongSamples(rows, g'), i', j', ttest);
      assert g == g';
      NameIndex(x.names, i, i');
      NameIndex(x.names, j, j');
    }
  }

  /** The samples of the groups `gs`, one per group. */
  function LongSamplesOf(rows: seq<LongRow>, gs: seq<string>): (xs: seq<Samples>)
    ensures |xs| == |gs| && AllAligned(xs)
    ensures forall k :: 0 <= k < |gs| ==> xs[k] == LongSamples(rows, gs[k])
  {
    if gs == [] then [] else LongSamplesOf(rows, gs[..|gs| - 1]) + [LongSamples(rows, gs[|gs| - 1])]
  }

  lemma {:induction false} LongAllTestsTable(rows: seq<LongRow>, gs: seq<string>, ttest: TTest)
    ensures LongAllTests(rows, gs, ttest) == Table(gs, LongSamplesOf(rows, gs), ttest)
  {
    if gs != [] {
      var n := |gs| - 1;
      var x := LongSamples(rows, gs[n]);
      LongAllTestsTable(rows, gs[..n], ttest);
      assert LongSamplesOf(rows, gs)[..n] == LongSamplesOf(rows, gs[..n]);
      if |x.names| < 2 {
        FewSamplesNoTests(gs[n], x, ttest);
      }
    }
  }

  /** The position of every row of the long table: its group's index in
      the group order and the indices of its two genotypes in the group's
      genotype order. */
  function LongTukeyKeys(rows: seq<LongRow>): seq<Key> {
    TableKeys(LongSamplesOf(rows, Groups(LeadsOf(rows))))
  }

  /** Row `m` of the long table compares the genotypes `i < j` of the group
      at index `k` of `LongTukeyKeys(rows)[m] == Key(k, i, j)`, a pair with
      two values on both sides; the keys ascend in (group, i, j) order, no
      row repeats, and there is exactly one row per tested (group, i, j),
      which is the `n_tests` of the correction. */
  lemma LongTukeyOrder(rows: seq<LongRow>, ttest: TTest)
    ensures |LongRawTests(rows, ttest)| == |LongTukeyKeys(rows)|
    ensures Increasing(LongTukeyKeys(rows))
    ensures forall m :: 0 <= m < |LongTukeyKeys(rows)| ==>
              var key := LongTukeyKeys(rows)[m];
              && key.group < |Groups(LeadsOf(rows))|
              && var g := Groups(LeadsOf(rows))[key.group];
                 var x := LongSamples(rows, g);
                 && key.i < key.j < |x.names| && Enough(x, key.i, key.j)
                 && LongRawTests(rows, ttest)[m] == TestOf(g, x, key.i, key.j, ttest)
    ensures |LongRawTests(rows, ttest)| ==
            |set k, i, j | 0 <= k < |Groups(LeadsOf(rows))| &&
                           0 <= i < j < |LongSamples(rows, Groups(LeadsOf(rows))[k]).names| &&
                           Enough(LongSamples(rows, Groups(LeadsOf(rows))[k]), i, j) :: Key(k, i, j)|
    ensures forall a, b :: 0 <= a < b < |LongRawTests(rows, ttest)| ==>
              LongRawTests(rows, ttest)[a] != LongRawTests(rows, ttest)[b]
  {
    var gs := Groups(LeadsOf(rows));
    var xs := LongSamplesOf(rows, gs);
    LongAllTestsTable(rows, gs, ttest);
    TableSpec(gs, xs, ttest);
    TableCount(gs, xs, ttest);
    forall k, a, b | 0 <= k < |xs| && 0 <= a < b < |xs[k].names| ensures xs[k].names[a] != xs[k].names[b] {
      LongSamplesSpec(rows, gs[k]);
    }
    TableDistinct(gs, xs, ttest);
    LongTestedKeys(rows, gs);
  }

  lemma LongTestedKeys(rows: seq<LongRow>, gs: seq<string>)
    ensures TestedPairs(LongSamplesOf(rows, gs)) ==
            (set k, i, j | 0 <= k < |gs| && 0 <= i < j < |LongSamples(rows, gs[k]).names| &&
                           Enough(LongSamples(rows, gs[k]), i, j) :: Key(k, i, j))
  {
    var xs := LongSamplesOf(rows, gs);
    var tested := set k, i, j | 0 <= k < |gs| && 0 <= i < j < |LongSamples(rows, gs[k]).names| &&
                                Enough(LongSamples(rows, gs[k]), i, j) :: Key(k, i, j);
    forall key | key in TestedPairs(xs) ensures key in tested {
      var k, i, j :| 0 <= k < |xs| && 0 <= i < j < |xs[k].names| && Enough(xs[k], i, j) && key == Key(k, i, j);
      assert xs[k] == LongSamples(rows, gs[k]);
    }
    forall key | key in tested ensures key in TestedPairs(xs) {
      var k, i, j :| 0 <= k < |gs| && 0 <= i < j < |LongSamples(rows, gs[k]).names| &&
                     Enough(LongSamples(rows, gs[k]), i, j) && key == Key(k, i, j);
      assert xs[k] == LongSamples(rows, gs[k]);
    }
  }

  /** A group with fewer than two genotypes contributes no row. */
  lemma {:induction false} SingleGenotypeSkipped(rows: seq<LongRow>, gs: seq<string>, g: string, ttest: TTest)
    requires |Unique(GenotypesOf(rows, g))| < 2
    ensures forall t :: t in LongAllTests(rows, gs, ttest) ==> t.group != g
  {
    if gs != [] {
      var init := gs[..|gs| - 1];
      var h := gs[|gs| - 1];
      SingleGenotypeSkipped(rows, init, g, ttest);
      var x := LongSamples(rows, h);
      if |x.names| >= 2 {
        GroupTestsSpec(h, x, |x.names|, ttest);
      }
    }
  }

  // ---------------------------------------------------------------------
  // Significance brackets

  /** A drawn bracket: the bar from `x1` to `x2` at `yBar`, tips reaching
      down to `tipY`, and the symbol centred above at `textX`. */
  datatype Bracket = Bracket(x1: real, x2: real, yBar: real, tipY: real, textX: real, symbol: string)

  /** The loop state: the brackets drawn so far and `annotation_offset`. */
  datatype Brackets = Brackets(drawn: seq<Bracket>, offset: real)

  /** The plot the loop reads: groups and genotypes in plot order and the
      bar width. */
  datatype Axis = Axis(groups: seq<Option<string>>, genotypes: seq<string>, barWidth: real)

  /** The row is drawn: it is significant and passes both lookups. */
  predicate Shown(row: TestResult, ax: Axis) {
    row.significance != "-" && Some(row.group) in ax.groups
    && row.group1 in ax.genotypes && row.group2 in ax.genotypes
  }

  function DrawBracket(row: TestResult, ax: Axis, yMax: real, offset: real): Bracket
    requires Shown(row, ax)
  {
    var gi := IndexOf(ax.groups, Some(row.group)).value;
    var n := |ax.genotypes|;
    var x1 := BarX(gi as real, IndexOf(ax.genotypes, row.group1).value, n, ax.barWidth);
    var x2 := BarX(gi as real, IndexOf(ax.genotypes, row.group2).value, n, ax.barWidth);
    var yBar := yMax + offset;
    Bracket(x1, x2, yBar, yBar - offset * 0.3, (x1 + x2) / 2.0, row.significance)
  }

  function BracketStep(st: Brackets, row: TestResult, ax: Axis, yMax: real, yRange: real): Brackets {
    if !Shown(row, ax) then st
    else Brackets(st.drawn + [DrawBracket(row, ax, yMax, st.offset)], st.offset + yRange * 0.08)
  }

  function RunBrackets(rows: seq<TestResult>, ax: Axis, yMax: real, yRange: real): Brackets {
    if rows == [] then Brackets([], yRange * 0.05)
    else BracketStep(RunBrackets(rows[..|rows| - 1], ax, yMax, yRange), rows[|rows| - 1], ax, yMax, yRange)
  }

  /** `_add_significance_annotations`; `yMax` and `yMin` are the largest
      `mean + sd` and the smallest mean of the summary. */
  method AddSignificanceAnnotations(rows: seq<TestResult>, ax: Axis, yMax: real, yMin: real)
    returns (drawn: seq<Bracket>)
    ensures drawn == RunBrackets(rows, ax, yMax, yMax - yMin).drawn
  {
    var yRange := yMax - yMin;
    var annotationOffset := yRange * 0.05;
    drawn := [];
    for k := 0 to |rows|
      invariant Brackets(drawn, annotationOffset) == RunBrackets(rows[..k], ax, yMax, yRange)
    {
      assert rows[..k + 1][..k] == rows[..k];
      var row := rows[k];
      if row.significance != "-" && Some(row.group) in ax.groups
         && row.group1 in ax.genotypes && row.group2 in ax.genotypes {
        drawn := drawn + [DrawBracket(row, ax, yMax, annotationOffset)];
        annotationOffset := annotationOffset + yRange * 0.08;
      }
    }
    assert rows[..|rows|] == rows;
  }

  /** The `m`-th drawn bracket: its offset is `0.05 r + 0.08 r m`, it sits
      that far above `y_max`, its tips drop 0.3 of the offset, and its
      symbol is a significant one. */
  predicate BracketAt(b: Bracket, yMax: real, yRange: real, m: nat) {
    var off := yRange * 0.05 + yRange * 0.08 * m as real;
    b.yBar == yMax + off && b.tipY == b.yBar - 0.3 * off && b.symbol != "-"
    && b.textX == (b.x1 + b.x2) / 2.0
  }

  predicate BracketsInv(st: Brackets, yMax: real, yRange: real) {
    && st.offset == yRange * 0.05 + yRange * 0.08 * |st.drawn| as real
    && forall m :: 0 <= m < |st.drawn| ==> BracketAt(st.drawn[m], yMax, yRange, m)
  }

  lemma BracketStepInv(st: Brackets, row: TestResult, ax: Axis, yMax: real, yRange: real)
    requires BracketsInv(st, yMax, yRange)
    ensures BracketsInv(BracketStep(st, row, ax, yMax, yRange), yMax, yRange)
    ensures |BracketStep(st, row, ax, yMax, yRange).drawn| == |st.drawn| + (if Shown(row, ax) then 1 else 0)
  {
    if Shown(row, ax) {
      var n := |st.drawn|;
      var b := DrawBracket(row, ax, yMax, st.offset);
      var ds := st.drawn + [b];
      assert yRange * 0.08 * (n + 1) as real == yRange * 0.08 * n as real + yRange * 0.08;
      assert BracketAt(b, yMax, yRange, n);
      forall m | 0 <= m < |ds| ensures BracketAt(ds[m], yMax, yRange, m) {
        if m < n { assert ds[m] == st.drawn[m]; }
      }
    }
  }

  /** The number of rows drawn. */
  function ShownCount(rows: seq<TestResult>, ax: Axis): nat {
    if rows == [] then 0
    else ShownCount(rows[..|rows| - 1], ax) + (if Shown(rows[|rows| - 1], ax) then 1 else 0)
  }

  /** One bracket per significant row that passes the lookups; "-" rows and
      failed lookups draw nothing and leave the offset where it was. */
  lemma {:induction false} RunBracketsSpec(rows: seq<TestResult>, ax: Axis, yMax: real, yRange: real)
    ensures BracketsInv(RunBrackets(rows, ax, yMax, yRange), yMax, yRange)
    ensures |RunBrackets(rows, ax, yMax, yRange).drawn| == ShownCount(rows, ax)
  {
    if rows != [] {
      RunBracketsSpec(rows[..|rows| - 1], ax, yMax, yRange);
      BracketStepInv(RunBrackets(rows[..|rows| - 1], ax, yMax, yRange), rows[|rows| - 1], ax, yMax, yRange);
    }
  }

  /** `annotation_offset` once `m` brackets are drawn. */
  function OffsetAt(yRange: real, m: nat): real {
    yRange * 0.05 + yRange * 0.08 * m as real
  }

  /** The `m`-th drawn bracket is the drawing of the `m`-th shown row: the
      bars of that row's two genotypes in its group, its symbol, and the
      offset `0.05 r + 0.08 r m`. */
  lemma {:induction false} RunBracketsRows(rows: seq<TestResult>, ax: Axis, yMax: real, yRange: real, k: nat)
    requires k < |rows| && Shown(rows[k], ax)
    ensures ShownCount(rows[..k], ax) < |RunBrackets(rows, ax, yMax, yRange).drawn|
    ensures var m := ShownCount(rows[..k], ax);
            RunBrackets(rows, ax, yMax, yRange).drawn[m] == DrawBracket(rows[k], ax, yMax, OffsetAt(yRange, m))
  {
    var init := rows[..|rows| - 1];
    var before := RunBrackets(init, ax, yMax, yRange);
    var after := RunBrackets(rows, ax, yMax, yRange);
    assert after == BracketStep(before, rows[|rows| - 1], ax, yMax, yRange);
    RunBracketsCount(init, ax, yMax, yRange);
    assert after.drawn[..|before.drawn|] == before.drawn;
    if k == |rows| - 1 {
      assert init == rows[..k];
      RunBracketsOffset(init, ax, yMax, yRange);
      var m := ShownCount(rows[..k], ax);
      assert m == |before.drawn|;
      assert before.offset == OffsetAt(yRange, m);
      assert after.drawn[m] == DrawBracket(rows[k], ax, yMax, before.offset);
    } else {
      assert init[..k] == rows[..k] && init[k] == rows[k];
      RunBracketsRows(init, ax, yMax, yRange, k);
      var idx := ShownCount(rows[..k], ax);
      assert after.drawn[..|before.drawn|][idx] == before.drawn[idx];
    }
  }

  lemma {:induction false} RunBracketsCount(rows: seq<TestResult>, ax: Axis, yMax: real, yRange: real)
    ensures |RunBrackets(rows, ax, yMax, yRange).drawn| == ShownCount(rows, ax)
  {
    if rows != [] {
      RunBracketsCount(rows[..|rows| - 1], ax, yMax, yRange);
    }
  }

  lemma {:induction false} RunBracketsOffset(rows: seq<TestResult>, ax: Axis, yMax: real, yRange: real)
    ensures var st := RunBrackets(rows, ax, yMax, yRange);
            st.offset == OffsetAt(yRange, |st.drawn|)
  {
    if rows != [] {
      var st := RunBrackets(rows[..|rows| - 1], ax, yMax, yRange);
      RunBracketsOffset(rows[..|rows| - 1], ax, yMax, yRange);
      if Shown(rows[|rows| - 1], ax) {
        var n := |st.drawn|;
        assert yRange * 0.08 * (n + 1) as real == yRange * 0.08 * n as real + yRange * 0.08;
      }
    }
  }

  /** With a positive range every bracket is drawn strictly above the
      previous ones. */
  lemma BracketsAscend(rows: seq<TestResult>, ax: Axis, yMax: real, yRange: real, m: nat, m': nat)
    requires yRange > 0.0
    requires m < m' < |RunBrackets(rows, ax, yMax, yRange).drawn|
    ensures RunBrackets(rows, ax, yMax, yRange).drawn[m].yBar < RunBrackets(rows, ax, yMax, yRange).drawn[m'].yBar
  {
    var d := RunBrackets(rows, ax, yMax, yRange).drawn;
    RunBracketsSpec(rows, ax, yMax, yRange);
    assert BracketAt(d[m], yMax, yRange, m) && BracketAt(d[m'], yMax, yRange, m');
    ScaleLess(yRange * 0.08, m as real, m' as real);
  }

  lemma ScaleLess(c: real, a: real, b: real)
    requires c > 0.0 && a < b
    ensures c * a < c * b
  {
    assert c * b - c * a == c * (b - a);
  }

  // ---------------------------------------------------------------------
  // Tick positions

  /** The tick positions of group `i` for its first `j` genotypes. */
  function TickRow(i: nat, j: nat, n: nat, width: real): (r: seq<real>)
    ensures |r| == j
  {
    if j == 0 then [] else TickRow(i, j - 1, n, width) + [BarX(i as real, j - 1, n, width)]
  }

  /** The tick positions of the first `i` groups. */
  function Ticks(i: nat, n: nat, width: real): (r: seq<real>) {
    if i == 0 then [] else Ticks(i - 1, n, width) + TickRow(i - 1, n, n, width)
  }

  /** The tick loop of `_configure_axes`: one tick under every bar, group by
      group. */
  method TickPositions(nGroups: nat, nGenotypes: nat, barWidth: real) returns (positions: seq<real>)
    ensures positions == Ticks(nGroups, nGenotypes, barWidth)
  {
    positions := [];
    for i := 0 to nGroups
      invariant positions == Ticks(i, nGenotypes, barWidth)
    {
      ghost var before := positions;
      for j := 0 to nGenotypes
        invariant positions == before + TickRow(i, j, nGenotypes, barWidth)
      {
        var pos := i as real + (j as real - nGenotypes as real / 2.0 + 0.5) * barWidth;
        positions := positions + [pos];
      }
    }
  }

  lemma {:induction false} TickRowAt(i: nat, j: nat, n: nat, width: real, c: nat)
    requires c < j
    ensures TickRow(i, j, n, width)[c] == BarX(i as real, c, n, width)
  {
    if c < j - 1 { TickRowAt(i, j - 1, n, width, c); }
  }

  lemma {:induction false} TicksLength(i: nat, n: nat, width: real)
    ensures |Ticks(i, n, width)| == i * n
  {
    if i > 0 {
      TicksLength(i - 1, n, width);
      MulSucc(i - 1, n);
    }
  }

  /** Adding a group keeps the earlier ticks where they were. */
  lemma TicksPrefix(i: nat, n: nat, width: real, x: nat)
    requires i > 0 && x < |Ticks(i - 1, n, width)|
    ensures x < |Ticks(i, n, width)| && Ticks(i, n, width)[x] == Ticks(i - 1, n, width)[x]
  {
    var a := Ticks(i - 1, n, width);
    assert Ticks(i, n, width) == a + TickRow(i - 1, n, n, width);
  }

  /** The ticks of the last group added follow the earlier ones. */
  lemma TicksLastRow(i: nat, n: nat, width: real, j: nat)
    requires i > 0 && j < n
    ensures |Ticks(i - 1, n, width)| + j < |Ticks(i, n, width)|
    ensures Ticks(i, n, width)[|Ticks(i - 1, n, width)| + j] == BarX((i - 1) as real, j, n, width)
  {
    var a := Ticks(i - 1, n, width);
    var b := TickRow(i - 1, n, n, width);
    assert Ticks(i, n, width) == a + b;
    TickRowAt(i - 1, n, n, width, j);
    assert (a + b)[|a| + j] == b[j];
  }

  /** Tick `k * n + j` is the centre of bar `j` of group `k`: the ticks sit
      exactly under the bars, one per bar. */
  lemma {:induction false} TicksAt(i: nat, n: nat, width: real, k: nat, j: nat)
    requires k < i && j < n
    ensures |Ticks(i, n, width)| == i * n
    ensures k * n + j < |Ticks(i, n, width)|
    ensures Ticks(i, n, width)[k * n + j] == BarX(k as real, j, n, width)
  {
    TicksLength(i, n, width);
    RowBlock(k, i, n, j);
    if k < i - 1 {
      TicksAt(i - 1, n, width, k, j);
      TicksPrefix(i, n, width, k * n + j);
    } else {
      TicksLength(i - 1, n, width);
      TicksLastRow(i, n, width, j);
      assert |Ticks(i - 1, n, width)| == k * n;
    }
  }
}
