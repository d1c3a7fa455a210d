/** mplib/xlsx_parser.py: the plot type a sheet's shape calls for, the
    check that its header is made of strings, and the loop that maps the
    sheets of a workbook to panels. Opening and reading the workbook are not
    modelled: the workbook is an input, each sheet an abstract frame. */
module XlsxParser {
  import opened Wrappers
  import opened Frames
  import opened Config

  /** A column name as `read_excel` returns it: a string, or another value
      (a number read from the header row). */
  datatype HeaderName = StrName(s: string) | OtherName

  /** A data cell; `Blank` is a missing value (NaN). */
  datatype Cell = Text(s: string) | Number(x: real) | Blank

  /** The dtype pandas gives a column: `object`, a numeric dtype, or any
      other (datetime and the like). */
  datatype Dtype = ObjectDtype | NumericDtype | OtherDtype

  datatype FrameColumn = FrameColumn(name: HeaderName, dtype: Dtype, cells: seq<Cell>)

  /** A read sheet: `df.shape[0]` rows and its columns in order. */
  datatype DataFrame = DataFrame(nRows: nat, columns: seq<FrameColumn>)

  datatype PlotKind = Bar | Scatter | Line | Histogram | Heatmap

  predicate AllStringNames(df: DataFrame) {
    forall c :: 0 <= c < |df.columns| ==> df.columns[c].name.StrName?
  }

  /** `first_col.iloc[data_start_idx:]`: the first row is left out when
      every column name is a string. */
  function DataCol(df: DataFrame): seq<Cell>
    requires |df.columns| >= 1
  {
    var cells := df.columns[0].cells;
    var start := if AllStringNames(df) then 1 else 0;
    if start <= |cells| then cells[start..] else []
  }

  /** `nunique()`: the number of distinct present values. */
  function NUnique(cells: seq<Cell>): nat {
    |Unique(Filled(cells))|
  }

  function Filled(cells: seq<Cell>): seq<Cell> {
    if cells == [] then [] else (if cells[0].Blank? then [] else [cells[0]]) + Filled(cells[1..])
  }

  /** The bar test: a first column of strings with at most ten distinct
      values, and numeric columns after it. */
  predicate BarShape(df: DataFrame)
    requires |df.columns| >= 2
  {
    var d := DataCol(df);
    && (df.columns[0].dtype == ObjectDtype || forall k :: 0 <= k < |d| ==> d[k].Text?)
    && NUnique(d) <= 10
    && forall c :: 1 <= c < |df.columns| ==> df.columns[c].dtype == NumericDtype
  }

  /** `_infer_plot_type`; `None` is the "Unknown plot type" exception.
      The bar test is tried first; two columns give a scatter plot below 80
      rows and a line plot from 80; one column is always a histogram, and so
      are more than two columns with 2 to 9 rows; more than two columns need
      at least 10 rows for a heat map; no columns, or more than two with at
      most one row, raise. */
  function InferPlotType(df: DataFrame): (r: Option<PlotKind>)
    ensures r == Some(Bar) <==> |df.columns| >= 2 && BarShape(df)
    ensures |df.columns| == 2 && !BarShape(df) ==> r == (if df.nRows < 80 then Some(Scatter) else Some(Line))
    ensures |df.columns| == 1 ==> r == Some(Histogram)
    ensures |df.columns| > 2 && !BarShape(df) ==>
              && (r == Some(Histogram) <==> 1 < df.nRows < 10)
              && (r == Some(Heatmap) <==> df.nRows >= 10)
              && (r.None? <==> df.nRows <= 1)
    ensures r.None? <==> |df.columns| == 0 || (|df.columns| > 2 && !BarShape(df) && df.nRows <= 1)
  {
    var rows := df.nRows;
    var cols := |df.columns|;
    if cols >= 2 && BarShape(df) then Some(Bar)
    else if cols == 2 && rows < 80 then Some(Scatter)
    else if cols == 2 && rows >= 80 then Some(Line)
    else if cols == 1 || (cols > 1 && rows > 1 && rows < 10) then Some(Histogram)
    else if cols > 2 && rows > 2 then Some(Heatmap)
    else None
  }

  /** With string column names the first cell of the first column is
      skipped (`iloc[1:]`). `read_excel` has already taken the header row
      off, so that cell is the first data row, not a header: it never takes
      part in the decision. */
  lemma HeaderRowIgnored(df: DataFrame, c: Cell)
    requires AllStringNames(df) && |df.columns| >= 1 && |df.columns[0].cells| >= 1
    ensures var col := df.columns[0];
            var df' := df.(columns := [col.(cells := [c] + col.cells[1..])] + df.columns[1..]);
            InferPlotType(df') == InferPlotType(df)
  {
    var col := df.columns[0];
    var df' := df.(columns := [col.(cells := [c] + col.cells[1..])] + df.columns[1..]);
    assert forall k :: 1 <= k < |df.columns| ==> df'.columns[k] == df.columns[k];
    assert AllStringNames(df');
    assert DataCol(df') == DataCol(df) by {
      assert ([c] + col.cells[1..])[1..] == col.cells[1..];
    }
  }

  /** The indices of the columns whose name is not a string, in order. */
  function NonStringColumns(df: DataFrame, n: nat): (r: seq<nat>)
    requires n <= |df.columns|
    ensures forall c: nat :: c in r <==> c < n && !df.columns[c].name.StrName?
  {
    if n == 0 then []
    else NonStringColumns(df, n - 1) + (if df.columns[n - 1].name.StrName? then [] else [n - 1])
  }

  /** `_coerce_header`: the ValueError, with the offending columns, or
      nothing. */
  function CoerceHeader(df: DataFrame): Option<seq<nat>> {
    var bad := NonStringColumns(df, |df.columns|);
    if bad == [] then None else Some(bad)
  }

  /** The header check raises exactly when some column name is not a
      string. */
  lemma CoerceHeaderSpec(df: DataFrame)
    ensures CoerceHeader(df).Some? <==> !AllStringNames(df)
  {
    var bad := NonStringColumns(df, |df.columns|);
    if bad != [] {
      assert bad[0] in bad;
    }
  }

  // ---------------------------------------------------------------------
  // parse_xlsx_data

  /** A value of `panel_data`: the sheet's frame and its plot type. */
  datatype Panel = Panel(frame: DataFrame, kind: PlotKind)

  /** Why `parse_xlsx_data` stops: the plot type of a sheet cannot be
      inferred (the script exits), or its header is invalid (ValueError). */
  datatype ParseError = UnknownPlotType(sheet: string) | InvalidHeader(sheet: string, columns: seq<nat>)

  /** The outcome of one present sheet. */
  function SheetOutcome(df: DataFrame, sheet: string): Result<Panel, ParseError> {
    match InferPlotType(df)
    case None => Err(UnknownPlotType(sheet))
    case Some(kind) =>
      if kind != Heatmap && CoerceHeader(df).Some? then Err(InvalidHeader(sheet, CoerceHeader(df).value))
      else Ok(Panel(df, kind))
  }

  /** One step of the loop: a sheet missing from the workbook is skipped. */
  function PanelStep(acc: map<string, Panel>, workbook: map<string, DataFrame>, entry: (string, string)): Result<map<string, Panel>, ParseError> {
    if entry.0 !in workbook then Ok(acc)
    else
      match SheetOutcome(workbook[entry.0], entry.0)
      case Err(e) => Err(e)
      case Ok(p) => Ok(acc[entry.1 := p])
  }

  function ParseAll(workbook: map<string, DataFrame>, entries: Dict): Result<map<string, Panel>, ParseError> {
    if entries == [] then Ok(map[])
    else
      match ParseAll(workbook, entries[..|entries| - 1])
      case Err(e) => Err(e)
      case Ok(acc) => PanelStep(acc, workbook, entries[|entries| - 1])
  }

  /** The loop of `parse_xlsx_data` over `sheet2panel.items()`. */
  method ParseXlsxData(workbook: map<string, DataFrame>, sheet2panel: Dict) returns (r: Result<map<string, Panel>, ParseError>)
    ensures r == ParseAll(workbook, sheet2panel)
  {
    var panelData: map<string, Panel> := map[];
    for k := 0 to |sheet2panel|
      invariant ParseAll(workbook, sheet2panel[..k]) == Ok(panelData)
    {
      assert sheet2panel[..k + 1][..k] == sheet2panel[..k];
      var (sheetName, panelLabel) := sheet2panel[k];
      if sheetName !in workbook {
        continue;
      }
      var df := workbook[sheetName];
      var plotType := InferPlotType(df);
      if plotType.None? {
        r := Err(UnknownPlotType(sheetName));
        ParseAllStops(workbook, sheet2panel, k + 1);
        return;
      }
      if plotType.value != Heatmap {
        var bad := CoerceHeader(df);
        if bad.Some? {
          r := Err(InvalidHeader(sheetName, bad.value));
          ParseAllStops(workbook, sheet2panel, k + 1);
          return;
        }
      }
      panelData := panelData[panelLabel := Panel(df, plotType.value)];
    }
    assert sheet2panel[..|sheet2panel|] == sheet2panel;
    r := Ok(panelData);
  }

  /** Once a prefix has failed, the whole loop fails with the same error. */
  lemma {:induction false} ParseAllStops(workbook: map<string, DataFrame>, entries: Dict, k: nat)
    requires k <= |entries| && ParseAll(workbook, entries[..k]).Err?
    ensures ParseAll(workbook, entries) == ParseAll(workbook, entries[..k])
    decreases |entries| - k
  {
    if k < |entries| {
      assert entries[..k + 1][..k] == entries[..k];
      ParseAllStops(workbook, entries, k + 1);
    } else {
      assert entries[..k] == entries;
    }
  }

  /** The entry fails: its sheet is present and its type cannot be
      inferred or its header is invalid. */
  predicate Fails(workbook: map<string, DataFrame>, entry: (string, string)) {
    entry.0 in workbook && SheetOutcome(workbook[entry.0], entry.0).Err?
  }

  /** The loop fails exactly when some entry fails, and then with the
      error of the first failing entry. */
  lemma {:induction false} ParseAllErrors(workbook: map<string, DataFrame>, entries: Dict)
    ensures ParseAll(workbook, entries).Err? <==> exists k :: 0 <= k < |entries| && Fails(workbook, entries[k])
    ensures ParseAll(workbook, entries).Err? ==>
              exists k :: 0 <= k < |entries| && Fails(workbook, entries[k])
                && (forall j :: 0 <= j < k ==> !Fails(workbook, entries[j]))
                && ParseAll(workbook, entries).error == SheetOutcome(workbook[entries[k].0], entries[k].0).error
  {
    if entries != [] {
      var n := |entries| - 1;
      var init := entries[..n];
      ParseAllErrors(workbook, init);
      assert forall j :: 0 <= j < n ==> init[j] == entries[j];
    }
  }

  /** The panel `p` is the last present entry's panel among the entries. */
  predicate LastFor(workbook: map<string, DataFrame>, entries: Dict, k: nat)
    requires k < |entries|
  {
    entries[k].0 in workbook
    && forall j :: k < j < |entries| && entries[j].0 in workbook ==> entries[j].1 != entries[k].1
  }

  /** A successful loop succeeded on every prefix. */
  lemma ParseAllPrefix(workbook: map<string, DataFrame>, entries: Dict)
    requires entries != [] && ParseAll(workbook, entries).Ok?
    ensures ParseAll(workbook, entries[..|entries| - 1]).Ok?
    ensures ParseAll(workbook, entries) ==
              PanelStep(ParseAll(workbook, entries[..|entries| - 1]).value, workbook, entries[|entries| - 1])
  {
  }

  /** When the loop succeeds, the panels are those of the entries whose
      sheet exists; missing sheets contribute nothing. */
  lemma {:induction false} ParseAllKeys(workbook: map<string, DataFrame>, entries: Dict)
    requires ParseAll(workbook, entries).Ok?
    ensures forall p :: p in ParseAll(workbook, entries).value <==>
              exists k :: 0 <= k < |entries| && entries[k].0 in workbook && entries[k].1 == p
  {
    if entries != [] {
      var n := |entries| - 1;
      var init := entries[..n];
      ParseAllPrefix(workbook, entries);
      ParseAllKeys(workbook, init);
      assert forall j :: 0 <= j < n ==> init[j] == entries[j];
    }
  }

  /** Each panel holds the frame and type of the last present entry mapped
      to it: a later sheet for the same panel replaces an earlier one. */
  lemma {:induction false} ParseAllValues(workbook: map<string, DataFrame>, entries: Dict, k: nat)
    requires ParseAll(workbook, entries).Ok?
    requires k < |entries| && LastFor(workbook, entries, k)
    ensures entries[k].1 in ParseAll(workbook, entries).value
    ensures Ok(ParseAll(workbook, entries).value[entries[k].1]) == SheetOutcome(workbook[entries[k].0], entries[k].0)
  {
    var n := |entries| - 1;
    var init := entries[..n];
    ParseAllKeys(workbook, entries);
    ParseAllPrefix(workbook, entries);
    if k < n {
      assert init[k] == entries[k];
      assert LastFor(workbook, init, k);
      ParseAllValues(workbook, init, k);
      ParseAllKeys(workbook, init);
    }
  }
}
