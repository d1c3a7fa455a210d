# multipanel — a verified model of its computational core

multipanel builds publication figures with matplotlib. There are two kinds:

- **Grouped bar charts with significance brackets.** `mplib/bar_w_stats.py` and `stats_visualization.py` draw them, and the two `demos/signif*_single_group.py` scripts draw single-group variants.
- **Labelled mosaic figures.** An Excel workbook is laid out as a figure according to a YAML plot specification (`mplib/io_utils.py`, `mplib/validate.py`, `mplib/xlsx_parser.py`, `mplib/plotting.py`). Panel labels are placed in gutters cut into the axes (`mplib/layout.py`, `demos/single_panel.py`).

This project models the arithmetic and bookkeeping between loading the data and drawing it. Each source file gets its own Dafny module:

- `significance.dfy` (`Significance`): the five-level p-value symbol table, which the source writes out four times, and the Bonferroni adjustment.
- `pairs.dfy` (`PairOrder`): the bar pairs `combinations(range(n), 2)` and the stable sort by span.
- `stacking.dfy` (`Stacking`): the bracket-stacking loop of `significance_annotation`. It works on an `array` of running column heights, updated in place.
- `glyph.dfy` (`GlyphGeometry`): the tick font size fallback and the bracket proportions of `asterisk_bar_geometry`.
- `bars.dfy`, `colors.dfy`, `frames.dfy`: bar positions, colour tables, and the pandas operations the scripts rely on (`dropna`, `unique`, `groupby` keys, `np.where`, `melt`).
- `comparisons.dfy`, `bar_stats.dfy`, `stats_vis.dfy`: summary records, the pairwise comparison tables, the annotation-offset loops, sheet-name parsing, file-name sanitising and tick positions.
- `config.dfy`, `io_utils.dfy`, `validate.dfy`, `xlsx_parser.dfy`: the plot specification, the layout normalisation, the spec checks, `load_plot_spec`'s checks, the plot-type decision tree and the sheet-to-panel loop.
- `layout.dfy`, `single_panel.dfy`, `plotting.dfy`: the label gutter geometry (`Figure` and `Axes` are classes whose methods update the axes position and the figure's texts), the inner-axes fractions and the panel classification of `build_figure_from_spec`.
- `common.dfy`: the parts of Python's `str` the code uses (`isspace`, `strip`, `split`, `splitlines`, `join`), string order with `sorted`, and order-preserving filtering.

How the outside world appears in the model:

- Measured text extents, figure sizes, the t-test p-value and parsed YAML values are inputs.
- A t-test is the function parameter `ttest`.
- Drawing is recorded as values: brackets, marks, placed texts, plots.
- Coordinates and p-values are `real`.
- Exceptions are `Err`/`None` results.

## Model

| member | source | states |
|---|---|---|
| Significance.SymbolBands | demos/signifi_single_group.py:7-17 | each of the five symbols is returned exactly on its own p-value band (both directions); the identical table in demos/signif_single_group.py, mplib/bar_w_stats.py and stats_visualization.py is the same function |
| Significance.SymbolMonotone | demos/signifi_single_group.py:7-17 | a smaller p-value never gets fewer stars; every symbol is one of the five |
| Significance.NotSignificantIff | mplib/bar_w_stats.py:129-148 | "-" (no star) exactly when p > 0.05; at most four stars |
| Significance.Adjust | mplib/bar_w_stats.py:119-121 | `min(p * n, 1)`: exactly `p * n` when that is below 1, exactly 1 otherwise, so never above 1 |
| Significance.AdjustBounds | mplib/bar_w_stats.py:119-121 | for p in [0, 1] and n >= 1, `p <= p_adj <= 1` |
| Significance.AdjustMonotone | stats_visualization.py:248-253 | a larger test family never lowers `p_adj` or adds stars |
| PairOrder.CombinationsSpec | demos/signifi_single_group.py:165-175 | the p-value keys are exactly the pairs `0 <= i < j < n`, each once, in lexicographic order (also the keys of `generate_test_values` in demos/signif_single_group.py) |
| PairOrder.SortBySpan | demos/signifi_single_group.py:76-76 | the sort keeps length and multiset, is non-decreasing in span, and is stable: the pairs of each span keep their input order (the same sort appears in demos/signif_single_group.py) |
| PairOrder.NarrowerFirst | demos/signifi_single_group.py:76-76 | in the sorted list a strictly narrower pair comes first |
| PairOrder.InsertSorted | demos/signifi_single_group.py:76-76 | one insertion step keeps the list sorted by span |
| PairOrder.InsertWithSpan | demos/signifi_single_group.py:76-76 | one insertion step puts the pair in front of the others of its span and leaves their order alone |
| Stacking.AxesMetrics | demos/signifi_single_group.py:47-89 | asterisk font `1.2 * tick`; height `fontsize / 72 * y_range / ax_height_in`; dash `0.6 * fontsize / 72 * x_range / ax_width_in` |
| Stacking.MaxOf | demos/signifi_single_group.py:73-73 | `max(list_of_heights)` is at least every height and is one of them |
| Stacking.SpanMaxSpec | demos/signifi_single_group.py:99-99 | the span maximum is at least every column of the span and is one of them |
| Stacking.RaiseSpec | demos/signifi_single_group.py:127-128 | raising lifts each column of the span to `max(old, new_max)` and leaves every other column alone |
| Stacking.RaiseColumns | demos/signifi_single_group.py:127-128 | the in-place inner loop leaves the array equal to `Raise` of its old contents |
| Stacking.DrawPair | demos/signifi_single_group.py:92-129 | one iteration on the array: the new heights, brackets and `top_y` are one `Step` of the old state |
| Stacking.DrawAll | demos/signifi_single_group.py:92-129 | the whole loop on the array equals `Run` over the sorted pairs |
| Stacking.SignificanceAnnotation | demos/signifi_single_group.py:19-133 | `None` exactly for an empty chart (`max` raises); otherwise the brackets and y-axis top of `Annotated` |
| Stacking.StepSpec | demos/signifi_single_group.py:99-129 | a step raises every spanned column to at least `y_line + h + level_spacing`, leaves the others alone, never lowers a column, keeps earlier brackets and raises `top_y` |
| Stacking.LineAboveColumn | demos/signifi_single_group.py:99-100 | a bracket's line is one level spacing above every column it spans |
| Stacking.StepKeepsStacked | demos/signifi_single_group.py:92-129 | one iteration preserves the loop invariant (support, layering, `top_y` is the highest reserved top) |
| Stacking.RunStacked | demos/signifi_single_group.py:92-129 | the invariant holds after every number of iterations |
| Stacking.RunPrefix | demos/signifi_single_group.py:92-129 | later iterations never change brackets already drawn |
| Stacking.AnnotationShape | demos/signifi_single_group.py:92-129 | one bracket per key in span order; tips `h/2` below the line; a dash at `y_line + h` exactly for "-", stars at `y_line - h/2` otherwise; the first bracket one level spacing above the tallest bar |
| Stacking.AnnotationStacks | demos/signifi_single_group.py:73-133 | brackets sharing a bar are at least a full level apart (strictly higher when h > 0); the final running height of every column is at least the tallest bar and at least the reserved top (`y_line + h + level_spacing`) of every bracket spanning it; the y top is at least every reserved top, 0 or one of them, and 0 without pairs |
| Stacking.WiderSpanAbove | demos/signifi_single_group.py:99-128 | of two overlapping pairs, the wider one's bracket is strictly higher when h > 0, whatever the key order |
| GlyphGeometry.TickFontsize | demos/signif_single_group.py:50-57 | first tick label's size if any, else `ytick.labelsize` when set, else `font.size` when set, else 10; a named size where the chain stops gives 10, also when `font.size` below it is numeric (the same chain as in demos/signifi_single_group.py) |
| GlyphGeometry.GeometryProportions | demos/signif_single_group.py:79-93 | tip = glyph height / 3, asterisk height = 0.4 glyph height = 1.2 tips, dash = 2 glyph widths, asterisk font = 1.2 tick font; all positive for a positive glyph |
| BarPositions.BarWidth | mplib/bar_w_stats.py:377-377 | `0.8 / n`, with `None` (ZeroDivisionError) exactly for n = 0 |
| BarPositions.BarXSpec | mplib/bar_w_stats.py:398-398 | bars are one bar width apart, symmetric about the group position, within 0.4 of it, and before the next group's first bar (the genotype bars of stats_visualization.py use the same formula) |
| Colors.ColorFor | mplib/bar_w_stats.py:306-306 | the lookup returns a table colour or the grey fallback |
| Colors.FallbackIff | stats_visualization.py:294-294 | for a table without the grey, the grey comes back exactly for unlisted names, and a listed name gets its entry |
| Colors.AttributeColorSpec | mplib/bar_w_stats.py:18-25 | exactly the attributes other than A to D are grey; the table entries |
| Colors.GenotypeColorSpec | stats_visualization.py:28-64 | listed genotypes get one of the eight shades, unlisted ones (and only those) the grey |
| Frames.PresentMembers | mplib/bar_w_stats.py:50-50 | `dropna()` keeps exactly the present values, one per present cell (its length is the number of present cells) |
| Frames.IndexOf | mplib/bar_w_stats.py:239-251 | the first index of a value, `None` exactly when absent |
| Frames.Unique | stats_visualization.py:220-220 | `unique()` has no repeats and the same elements |
| Frames.UniqueOrder | stats_visualization.py:220-220 | `unique()` lists elements in order of first appearance |
| Frames.GroupsSpec | mplib/bar_w_stats.py:48-48 | the `groupby(sort=False)` keys are exactly the present keys |
| Frames.SelectSpec | mplib/bar_w_stats.py:48-50 | a group's values are exactly the present cells of its rows, one per such cell (its length is the number of rows of the group with a present cell), so no more than its row count; none for an absent key |
| Frames.MeltColumnRows | stats_visualization.py:172-177 | melting a column keeps its present values in row order, each tagged with the header |
| Frames.MeltColumnLeads | stats_visualization.py:172-177 | the k-th melted row of a column comes from the k-th present cell (rows in increasing order): it carries that row's group key and that cell's value |
| Frames.MeltColumnValues | stats_visualization.py:172-177 | selecting a melted column by key and header gives the key's values; another header gives nothing |
| Frames.MeltGenotypes | stats_visualization.py:172-177 | one long row per present cell, each with a header of the sheet |
| Frames.MeltValues | stats_visualization.py:172-177 | with distinct headers, the long-format selection for (group, header) is that column's values for the group |
| Frames.MeltOthers | stats_visualization.py:172-177 | a header naming no column selects nothing |
| BarStats.CalculateSummaryStatistics | mplib/bar_w_stats.py:31-71 | the nested loop returns the summary table `Summary` |
| BarStats.SummaryAt | mplib/bar_w_stats.py:43-67 | exactly `groups * columns` records, group by group in first-appearance order, the record of group k and column c at `k * columns + c` |
| BarStats.RecordSpec | mplib/bar_w_stats.py:49-66 | a record carries its group and attribute; its count is `values.count()`, the number of the group's rows with a present cell in the column (at most the group's rows); count 0 exactly for a NaN mean; a mean within its values' bounds |
| BarStats.PerformTukeyHsd | mplib/bar_w_stats.py:74-126 | the loops return `Tukey`: the raw comparisons, corrected |
| BarStats.FewColumnsNoTests | mplib/bar_w_stats.py:91-92 | fewer than two attributes gives an empty table |
| BarStats.TukeyMembers | mplib/bar_w_stats.py:94-112 | with distinct headers, a row for (group, i < j) is present exactly when both columns have two values there, and every row is such a pair (order and multiplicity: BarStats.TukeyOrder) |
| BarStats.TukeyOrder | mplib/bar_w_stats.py:94-120 | row m compares the columns `i < j` of the k-th group for the m-th key `(k, i, j)`, a tested pair; the keys strictly ascend in (group, i, j) order; the table has exactly one row per tested (group, i, j), which is `n_tests`; with distinct headers no row repeats |
| BarStats.AllTestsTable | mplib/bar_w_stats.py:94-112 | the group loop's rows are the generic table of the groups' column samples |
| BarStats.TukeyCorrection | mplib/bar_w_stats.py:117-124 | every row is corrected by the total number of rows over all groups, its symbol read off `p_adj` |
| BarStats.YRange | mplib/bar_w_stats.py:213-215 | positive; exactly `y_max - y_min` when that is positive, exactly 1.0 otherwise |
| BarStats.AsteriskHeight | mplib/bar_w_stats.py:218-229 | `TypeError` (`None`) exactly for a named `ytick.labelsize` such as matplotlib's default "medium"; otherwise `h * 72 * fig_h = size * y_range` (the full tick size converted to data units), positive for positive size, range and figure height |
| BarStats.AddSignificanceAnnotations | mplib/bar_w_stats.py:206-293 | `TypeError` exactly for a named tick size, before anything is drawn; otherwise, with `h` = `AsteriskHeight` of `YRange(y_max, y_min)`, the marks and `max_y_used` of `RunMarks` from `y_max + h` |
| BarStats.DrawMarks | mplib/bar_w_stats.py:231-293 | the row loop returns the marks and `max_y_used` of `RunMarks` from `y_max + h` |
| BarStats.DrawRowSpec | mplib/bar_w_stats.py:254-288 | a drawn row sits at the current offset with tips `h/2` lower; its top is `+0.33 h` for a dash (exactly when "-") or `+h` for text |
| BarStats.RunMarksSpec | mplib/bar_w_stats.py:235-291 | one mark per row passing the lookups; the m-th at `start + 1.5 h m`; rows failing a lookup add nothing and do not advance |
| BarStats.RunMarksRows | mplib/bar_w_stats.py:235-291 | the m-th mark is the drawing of the m-th row that passes the lookups |
| BarStats.AnnotationTop | mplib/bar_w_stats.py:231-293 | `max_y_used` starts at `y_max + h`, covers every mark's top, and is the start or one of them |
| Comparisons.ApplyCorrection | mplib/bar_w_stats.py:119-124 | the column loop returns `Corrected` of the raw rows |
| Comparisons.CorrectedSpec | stats_visualization.py:248-253 | every comparison kept in place, `p_adj = min(p * n, 1)` with n the table size, symbol from `p_adj` |
| Comparisons.CorrectionNeverAddsStars | stats_visualization.py:248-253 | a corrected row never has more stars than its raw p-value gives |
| Comparisons.GroupPass | mplib/bar_w_stats.py:97-112 | the outer pair loop appends `GroupTests` |
| Comparisons.RowPass | mplib/bar_w_stats.py:98-112 | the inner loop appends the pairs with two values on both sides, skipping the rest |
| Comparisons.GroupTestsSpec | mplib/bar_w_stats.py:97-112 | a group's rows are exactly the pairs `i < j` with two values on both sides (order and multiplicity: Comparisons.GroupKeysSpec) |
| Comparisons.GroupTestsIff | stats_visualization.py:226-241 | with distinct names, the row of `i < j` is present exactly when both sides have two values |
| Comparisons.RowKeysSpec | mplib/bar_w_stats.py:98-112 | the inner loop's rows are the tested pairs `(i, j')`, `j' < j`, one by one in increasing `j'`, and every such pair has its row |
| Comparisons.GroupKeysSpec | mplib/bar_w_stats.py:97-112 | a group's rows compare, one by one, its tested pairs in strictly increasing `(i, j)` order (so once each), and every tested pair has its row |
| Comparisons.FewSamplesNoTests | stats_visualization.py:222-223 | a group with fewer than two samples has no row, so the skip changes nothing |
| Comparisons.TableSpec | stats_visualization.py:219-241 | row m of the groups' table compares the tested pair named by the m-th key; the keys strictly ascend in (group, i, j) order; every tested pair of every group has its key |
| Comparisons.TableDistinct | stats_visualization.py:219-241 | with distinct group names and distinct sample names no two rows are equal |
| Comparisons.TableCount | stats_visualization.py:246-249 | the table has exactly as many rows as there are tested (group, i, j), the `n_tests` of the correction |
| Comparisons.IncreasingCount | stats_visualization.py:246-249 | strictly ascending keys are as many as the set they form |
| StatsVis.ParseSheetNameSpec | stats_visualization.py:84-87 | fails exactly for an all-whitespace name; otherwise the figure label is one token, the y label splits into the leading tokens, and y label + " " + label has the name's tokens |
| StatsVis.ParseSheetNameExample | stats_visualization.py:81-86 | "Cell Count A" gives ("Cell Count", "A") |
| StatsVis.SanitizeFilenameSpec | stats_visualization.py:487-497 | only word characters, no longer than the name, a word-only name unchanged; stripping first changes nothing, and a stripped name goes straight to the substitution |
| StatsVis.SubstituteWordPrefix | stats_visualization.py:497-497 | `re.sub` copies a run of word characters unchanged |
| StatsVis.SubstituteNonWordRun | stats_visualization.py:497-497 | a maximal run of whitespace and non-word characters, of any length, becomes exactly one "_" |
| StatsVis.SanitizeJoinsWords | stats_visualization.py:487-497 | two words separated by any run of spaces and punctuation come out joined by a single "_" |
| StatsVis.SanitizeIdempotent | stats_visualization.py:487-497 | sanitising twice equals sanitising once |
| StatsVis.SanitizeExample | stats_visualization.py:497-497 | "a / b" becomes "a_b" |
| StatsVis.LongSamplesSpec | stats_visualization.py:220-220 | the genotypes of a group are distinct, are exactly those some row of the group has, and come in the order of their first row |
| StatsVis.PerformTukeyHsd | stats_visualization.py:205-255 | the loops return `LongTukey`: the raw long-table comparisons, corrected |
| StatsVis.LongTests | stats_visualization.py:219-241 | the group loop returns `LongAllTests` |
| StatsVis.LongGroupPass | stats_visualization.py:220-241 | one group appends its pair rows, or nothing with fewer than two genotypes |
| StatsVis.LongAllTestsSpec | stats_visualization.py:219-241 | the raw rows are exactly the genotype pairs `i < j` of each group with two values on both sides (order and multiplicity: StatsVis.LongTukeyOrder) |
| StatsVis.LongTukeyMembers | stats_visualization.py:219-241 | a row for genotypes `i < j` of a present group exists exactly when both have two values; every row comes from one group (order and multiplicity: StatsVis.LongTukeyOrder) |
| StatsVis.LongTukeyOrder | stats_visualization.py:219-249 | row m compares the genotypes `i < j` of the k-th group for the m-th key `(k, i, j)`, a tested pair; the keys strictly ascend in (group, i, j) order; no row repeats; exactly one row per tested (group, i, j), which is `n_tests` |
| StatsVis.LongAllTestsTable | stats_visualization.py:219-241 | the group loop's rows, with groups of fewer than two genotypes skipped, are the generic table of the groups' genotype samples |
| StatsVis.SingleGenotypeSkipped | stats_visualization.py:222-223 | a group with fewer than two genotypes contributes no row |
| StatsVis.AddSignificanceAnnotations | stats_visualization.py:395-439 | the loop draws `RunBrackets` with `y_range = y_max - y_min` |
| StatsVis.BracketStepInv | stats_visualization.py:406-439 | one row keeps the bracket invariant and adds a bracket exactly when shown |
| StatsVis.RunBracketsSpec | stats_visualization.py:402-439 | one bracket per significant row passing the lookups; the m-th at `y_max + 0.05 r + 0.08 r m`, tips `0.3` of the offset lower |
| StatsVis.RunBracketsRows | stats_visualization.py:402-439 | the m-th drawn bracket is the drawing of the m-th shown row: the bars of its two genotypes in its group, its symbol, and the offset `0.05 r + 0.08 r m` |
| StatsVis.BracketsAscend | stats_visualization.py:428-439 | with a positive range every bracket is strictly above the earlier ones |
| StatsVis.TickPositions | stats_visualization.py:457-466 | the nested tick loop returns `Ticks` |
| StatsVis.TicksAt | stats_visualization.py:457-466 | `groups * genotypes` ticks; tick `k * n + j` is the centre of bar j of group k |
| Config.PutKeys | mplib/io_utils.py:64-64 | `d[k] = v` keeps the old keys in order and appends a new key |
| Config.PutGet | mplib/io_utils.py:64-64 | after `d[k] = v`, k maps to v and every other key to its old value |
| Config.PutDistinct | mplib/io_utils.py:64-64 | assignment keeps the keys distinct |
| Config.Get | mplib/config.py:18-18 | lookup fails exactly for a missing key |
| Config.GetFound | mplib/config.py:18-18 | a successful lookup returns the value of the first entry with that key |
| IoUtils.NormalizeRowsSpec | mplib/io_utils.py:24-31 | the one pass equals the two comprehensions, `strip()` of every row and then the filter `row.strip() != ""`, so repeated rows are all kept; every kept row is non-empty and stripped, in input order, and only blank rows are dropped |
| IoUtils.NormalizeRows | mplib/io_utils.py:25-30 | never more rows than given |
| IoUtils.NormalizeNormal | mplib/io_utils.py:29-31 | normalised rows come back unchanged |
| IoUtils.NormalizeIdempotent | mplib/io_utils.py:29-31 | normalising twice equals normalising once |
| IoUtils.BlockLayoutSpec | mplib/io_utils.py:24-27 | a block string always normalises, to rows without line boundaries |
| IoUtils.BlockRoundTrip | mplib/io_utils.py:14-31 | normalised rows given as a "\n"-joined block or as a list of strings normalise back to themselves |
| IoUtils.StringDictDistinct | mplib/io_utils.py:64-64 | the printed mapping has distinct keys |
| IoUtils.StringDictKeys | mplib/io_utils.py:64-64 | its keys are the printed keys of the entries |
| IoUtils.StringDictValues | mplib/io_utils.py:64-64 | each printed key maps to the printed value of the last entry with that key |
| IoUtils.LoadPlotSpecSpec | mplib/io_utils.py:44-68 | the errors in order (missing path, empty document, no `sheet2panel`, no `layout`, non-mapping, non-iterable layout), each exactly on its condition; success with distinct printed keys and normalised layout |
| Validate.PanelsInLayout | mplib/validate.py:11-21 | the nested loop returns `LayoutPanels` |
| Validate.LayoutPanelsSpec | mplib/validate.py:11-21 | the layout panels are exactly the non-whitespace characters of the rows |
| Validate.Outside | mplib/validate.py:42-46 | the elements outside a set, in their order |
| Validate.MissingSheetsSpec | mplib/validate.py:42-51 | the missing-sheet error comes exactly when some key is not a sheet, whatever the layout, and lists those keys in mapping order |
| Validate.UnknownPanelsSpec | mplib/validate.py:53-64 | with all sheets present, the unknown-panel error comes exactly when some value is not a layout panel, and lists those ids sorted and once each |
| Validate.ValidSpec | mplib/validate.py:24-75 | a normal return exactly when keys are sheets and values are layout panels ("0" included); the warning lists the sorted unmapped panels other than "0" |
| Lex.SortedSet | mplib/validate.py:59-59 | `sorted(set)`: strictly increasing with the same elements |
| Lex.SortedUnique | mplib/validate.py:67-67 | a strictly sorted list is determined by its elements |
| XlsxParser.InferPlotType | mplib/xlsx_parser.py:8-49 | bar exactly on the bar shape (tested first); two columns scatter below 80 rows, line from 80; one column histogram; more than two histogram (2-9 rows) or heat map (10 or more); fails exactly for no columns or more than two with at most one row |
| XlsxParser.HeaderRowIgnored | mplib/xlsx_parser.py:17-21 | with string headers the first data cell does not affect the decision |
| XlsxParser.CoerceHeaderSpec | mplib/xlsx_parser.py:51-54 | the header error comes exactly when some column name is not a string, listing those columns |
| XlsxParser.ParseXlsxData | mplib/xlsx_parser.py:57-85 | the loop returns `ParseAll` |
| XlsxParser.ParseAllErrors | mplib/xlsx_parser.py:67-81 | failure exactly when a present sheet fails, with the first such sheet's error |
| XlsxParser.ParseAllKeys | mplib/xlsx_parser.py:67-83 | the panels are those of entries whose sheet exists |
| XlsxParser.ParseAllValues | mplib/xlsx_parser.py:83-83 | each panel holds the frame and type of the last present entry mapped to it |
| PanelLayout.Figure.constructor | mplib/layout.py:28-29 | a figure of the given size with no texts |
| PanelLayout.Axes.constructor | mplib/layout.py:41-56 | an axes with the given position and measured texts |
| PanelLayout.RunningMaxSpec | mplib/layout.py:14-22 | the running maximum from 0 is at least 0 and every element, and 0 or one of them |
| PanelLayout.CalculateMaxLabelMetrics | mplib/layout.py:11-25 | the loop returns the running maxima of widths and heights |
| PanelLayout.MaxLabelMetricsSpec | mplib/layout.py:14-25 | component-wise maxima, at least 0, each 0 or some label's extent, so (0, 0) for none |
| PanelLayout.MaxTickWidth | mplib/layout.py:46-51 | the tick loop returns the running maximum over ticks with text |
| PanelLayout.TickWidthSpec | mplib/layout.py:46-51 | at least every texted tick's width, 0 or one of them, 0 when no tick has text |
| PanelLayout.Padding | mplib/layout.py:36-39 | `x_pad * fig_w = y_pad * fig_h = fontsize / 72 * padding_factor` |
| PanelLayout.PanelGutterSpec | mplib/layout.py:58-77 | gives up exactly when the new width or height is not positive; otherwise bottom and right kept, left in by the left inset, top down by the top inset, label one pad in from the old top-left; with non-negative sizes the box is inside the old one and the label in the gutter |
| PanelLayout.AddPanelLabel | mplib/layout.py:28-77 | too small: axes and figure unchanged; otherwise the axes moves to the gutter box and the figure gains exactly the label at its anchor |
| SinglePanel.AdjustedSpec | demos/single_panel.py:97-120 | left = max(x0, required left); bottom kept; top at most y1 and under the label (and under a title with height); sizes at least 0.1, and unclamped edges kept; label at `(x_pad, 1 - y_pad - label_h)` |
| SinglePanel.LabelClearOfAxes | demos/single_panel.py:76-117 | the label, a pad, the y label and the ticks fit left of the axes; an unclamped axes ends a pad below the label |
| SinglePanel.MaxTickWidthAll | demos/single_panel.py:64-69 | the loop returns the running maximum over all tick widths |
| SinglePanel.AddPanelLabelWithAdjustment | demos/single_panel.py:5-137 | the axes moves to the adjusted box and the figure gains exactly the final label |
| Plotting.InnerPlotAxesSpec | mplib/plotting.py:39-64 | error exactly for a negative fraction; equal physical left and top margins of `frac * fig_w`; bottom 0, right edge kept; the whole container for 0 |
| Plotting.ClassifyPanels | mplib/plotting.py:116-135 | the container loop gives each container its role and fills `plot_axes` as `PlotAxes` |
| Plotting.RoleOfSpec | mplib/plotting.py:122-135 | "0" is the legend and only it; every other container is labelled; unmapped ones are placeholders; mapped ones get 0.05-margin inner axes |
| Plotting.PlotAxesSpec | mplib/plotting.py:116-135 | `plot_axes` holds exactly the mapped containers other than "0", each with its own inner axes |
| Plotting.MappedPanelsHaveAxes | mplib/plotting.py:113-140 | when every mapped panel is a container, a panel has inner axes exactly when it is not "0" |
| Plotting.MosaicRows | mplib/plotting.py:110-110 | the mosaic string splits back into the normalised layout rows |
| Plotting.DrawSheets | mplib/plotting.py:138-143 | the sheet loop returns `PlotSheets`, stopping at the first exception |
| Plotting.PlotSheetsErrors | mplib/plotting.py:138-143 | the figure fails exactly when some sheet fails, with the first failing sheet's exception |
| Plotting.PlotSheetsOk | mplib/plotting.py:94-143 | without failure, one plot per sheet in mapping order into its panel's inner axes, each sheet present with x and y |
| Plotting.LegendSheetFails | mplib/plotting.py:140-140 | a sheet mapped to "0" fails its inner-axes lookup |
| Plotting.BuildFigureFromSpec | mplib/plotting.py:104-145 | the mosaic string, each container's role, and the plots or the first exception |
| PyStr.StripSpec | mplib/io_utils.py:25-25 | `strip()` leaves no whitespace at either end and never lengthens |
| PyStr.StripIdempotent | mplib/io_utils.py:26-26 | stripping twice equals stripping once |
| PyStr.SplitJoin | stats_visualization.py:84-85 | joining non-empty words by spaces and splitting gives them back |
| PyStr.SplitEmpty | stats_visualization.py:84-86 | `split()` returns no token exactly for an all-whitespace string |
| PyStr.SplitLinesJoin | mplib/plotting.py:110-110 | `splitlines()` of non-empty lines joined by "\n" gives them back |

## Left out

- Rendering and measurement in matplotlib (`canvas.draw`, `get_window_extent`, transforms, `inset_axes`, `annotate`, `text`, `plot`, `set_ylim`, `set_position`, `subplot_mosaic`). Extents, figure sizes and container sizes are inputs; drawing is recorded as values. Whether a layout is made of rectangles is checked inside `subplot_mosaic`, which is not part of this model.
- `scipy.stats.ttest_ind`: a function parameter returning the p-value.
- The floating-point values of pandas `mean` and `std`. Means are exact rational means; the `sd` column is not modelled. The long-format summary statistics of stats_visualization.py (lines 186-202) are not modelled: they are one pandas `agg` call with no logic of the script's own.
- The workbook, YAML and file I/O: `ExcelFile`, `read_excel`, `yaml.safe_load`, `list_xlsx_sheet_names`, `load_sheet_dataframe`, `save_figure_svg`, `print`, `warnings.warn` and `sys.exit`. The read sheets, the parsed document, `path.exists()` and the sheet names are inputs.
- The dtypes pandas infers for the sheet's columns. They are inputs to `InferPlotType`, as is the header type.
- A top-level YAML document that is not a mapping. The document is modelled as a map from keys to values.
- `get_complementary_color`: it depends on the external `colorGenerator` module and on `to_hex`.
- `format_genotype_label`: its regular-expression backtracking is not modelled.
- `_add_data_points` and the random p-values of `generate_test_values`: they use random numbers. Only the keys of `generate_test_values` are modelled.
- `draw_asterisk_bars` in demos/signif_single_group.py cannot run. It calls `asterisk_bar_geometry` with one argument too many and uses names that are not defined. The working variant in demos/signifi_single_group.py is modelled instead.
- Also not modelled, since they only wire the modelled operations to drawing and I/O:
  - the demo scripts' top levels and `barplot_w_sig_annotation`;
  - the final label check and debug output of demos/single_panel.py (lines 139-150);
  - `_label_panel_in_container`, `_populate_legend_panel` and the drawing half of `_plot_default_xy`;
  - `_configure_axes` apart from its tick loop;
  - `create_grouped_bar_plot` apart from its bar positions;
  - `process_sheet`, `process_excel_file` and `main`;
  - labeled_mosaic_demo/demo.py, multipanel.py, test_bar_plot.py and examples/make_example_xlsx.py.
- `\w` in `sanitize_filename`: ASCII letters, digits and the underscore are exact. Every other non-whitespace character above U+007F counts as a word character, which over-approximates Unicode letters and digits.
- StatsVis.ParseSheetNameSpec: tokens are split on Python's whitespace, and `str.split()` is modelled on code points only.
- Plotting.MakeInnerPlotAxes: requires positive figure and container sizes. A container of zero size would make numpy produce `inf` or `nan`, which reals cannot express.
- `plot_axes[panel_id]` for a panel without inner axes raises KeyError. It is modelled as the error `NoInnerAxes`.
- Group keys: a missing group key forms no group, as in `groupby`. Column headers are taken as distinct where a lemma says so, as `read_excel` makes them.
- Frames.Unique, Lex.SortedSet: Python's string order is by code point. These model it as sequence order on `char`.
- Floating-point arithmetic is modelled as exact `real` arithmetic throughout. For example, `p <= 0.0001` compares exact rationals.
- `validate_spec_against_xlsx` accepts a mapping value "0". Such a sheet then fails its `plot_axes` lookup (Plotting.LegendSheetFails).
- `load_plot_spec` reads only `sheet2panel` and `layout`; no other key of the document is modelled.
- BarStats.AddSignificanceAnnotations: `y_max` and `y_min` are inputs. They are `max(mean + sd)` and `min(mean)` of the summary, and the `sd` column is not modelled. The figure height is an input too.
- Config.Get: its contract states only when the lookup fails; the value it returns is stated by Config.GetFound.
- BarStats.TukeyMembers: states membership only; the order of the rows, that each appears once and their number are stated by BarStats.TukeyOrder.
- Comparisons.GroupTestsSpec: states membership only; order and multiplicity are stated by Comparisons.GroupKeysSpec.
- StatsVis.LongAllTestsSpec: states membership only; order and multiplicity are stated by StatsVis.LongTukeyOrder.
- StatsVis.LongTukeyMembers: states membership only; order and multiplicity are stated by StatsVis.LongTukeyOrder.
