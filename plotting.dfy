/** mplib/plotting.py: building the mosaic figure from a plot specification.
    The container axes `subplot_mosaic` creates, the sheets read from the
    workbook and the figure size are given; what is modelled is the inner
    axes arithmetic, which container gets a legend, a label or inner axes,
    and which sheet lookups and column checks fail. */
module Plotting {
  import opened Wrappers
  import opened PyStr
  import opened Config
  import IoUtils
  import XlsxParser

  // ---------------------------------------------------------------------
  // _make_inner_plot_axes

  /** An inset in the container's axes fractions: left, bottom, width,
      height. */
  datatype Inset = Inset(left: real, bottom: real, width: real, height: real)

  /** A mosaic container axes: its panel id and its size in figure fractions. */
  datatype Container = Container(id: string, width: real, height: real)

  /** The ValueError raised for a negative margin fraction. */
  datatype InsetError = NegativeMargin

  /** The margin fraction that builds the inner axes of every data panel. */
  const DataMarginFrac: real := 0.05

  /** `_make_inner_plot_axes`: a margin of `frac` figure widths in inches,
      expressed as a fraction of the container's width and of its height. */
  function MakeInnerPlotAxes(figWidth: real, figHeight: real, c: Container, frac: real): Result<Inset, InsetError>
    requires figWidth > 0.0 && figHeight > 0.0 && c.width > 0.0 && c.height > 0.0
  {
    if frac < 0.0 then Err(NegativeMargin)
    else
      var marginInches := frac * figWidth;
      var leftFrac := marginInches / (c.width * figWidth);
      var topMarginFrac := marginInches / (c.height * figHeight);
      Ok(Inset(leftFrac, 0.0, 1.0 - leftFrac, 1.0 - topMarginFrac))
  }

  /** The physical extent of a fraction of the container, in inches. */
  predicate EqualMargins(figWidth: real, figHeight: real, c: Container, frac: real, inset: Inset) {
    && inset.left * (c.width * figWidth) == frac * figWidth
    && (1.0 - inset.height) * (c.height * figHeight) == frac * figWidth
  }

  /** A negative fraction is rejected and nothing else is. The left margin
      and the top margin are the same length in inches, `frac` figure
      widths; the inset starts at the container's bottom and ends at its
      right edge; a zero fraction gives the whole container. */
  lemma InnerPlotAxesSpec(figWidth: real, figHeight: real, c: Container, frac: real)
    requires figWidth > 0.0 && figHeight > 0.0 && c.width > 0.0 && c.height > 0.0
    ensures MakeInnerPlotAxes(figWidth, figHeight, c, frac).Err? <==> frac < 0.0
    ensures MakeInnerPlotAxes(figWidth, figHeight, c, frac).Ok? ==>
              var inset := MakeInnerPlotAxes(figWidth, figHeight, c, frac).value;
              && EqualMargins(figWidth, figHeight, c, frac, inset)
              && inset.bottom == 0.0 && inset.left + inset.width == 1.0
              && inset.left >= 0.0 && inset.bottom + inset.height <= 1.0
    ensures frac == 0.0 ==> MakeInnerPlotAxes(figWidth, figHeight, c, frac) == Ok(Inset(0.0, 0.0, 1.0, 1.0))
  {
    if frac >= 0.0 {
      var w := c.width * figWidth;
      var h := c.height * figHeight;
      assert w > 0.0 && h > 0.0 by {
        PositiveProduct(c.width, figWidth);
        PositiveProduct(c.height, figHeight);
      }
      var m := frac * figWidth;
      assert m >= 0.0 by { NonNegativeProduct(frac, figWidth); }
      assert (m / w) * w == m;
      assert (m / h) * h == m;
    }
  }

  lemma PositiveProduct(a: real, b: real)
    requires a > 0.0 && b > 0.0
    ensures a * b > 0.0
  {
  }

  lemma NonNegativeProduct(a: real, b: real)
    requires a >= 0.0 && b > 0.0
    ensures a * b >= 0.0
  {
  }

  // ---------------------------------------------------------------------
  // The container loop of build_figure_from_spec

  /** What a container is used for: the legend ("0"), a labelled empty
      placeholder, or a labelled panel with inner axes for data. */
  datatype Role = Legend | Placeholder | DataPanel(inner: Inset)

  /** Every container except the legend gets a panel label. */
  predicate Labelled(r: Role) {
    !r.Legend?
  }

  predicate Positive(figWidth: real, figHeight: real, containers: seq<Container>) {
    && figWidth > 0.0 && figHeight > 0.0
    && forall c :: c in containers ==> c.width > 0.0 && c.height > 0.0
  }

  /** The inner axes a data panel gets. */
  function DataInset(figWidth: real, figHeight: real, c: Container): Inset
    requires figWidth > 0.0 && figHeight > 0.0 && c.width > 0.0 && c.height > 0.0
  {
    InnerPlotAxesSpec(figWidth, figHeight, c, DataMarginFrac);
    MakeInnerPlotAxes(figWidth, figHeight, c, DataMarginFrac).value
  }

  function RoleOf(figWidth: real, figHeight: real, c: Container, mapped: set<string>): Role
    requires figWidth > 0.0 && figHeight > 0.0 && c.width > 0.0 && c.height > 0.0
  {
    if c.id == "0" then Legend
    else if c.id !in mapped then Placeholder
    else DataPanel(DataInset(figWidth, figHeight, c))
  }

  /** `plot_axes` after the loop over the first containers. */
  function PlotAxes(figWidth: real, figHeight: real, containers: seq<Container>, mapped: set<string>): map<string, Inset>
    requires Positive(figWidth, figHeight, containers)
  {
    if containers == [] then map[]
    else
      var c := containers[|containers| - 1];
      var before := PlotAxes(figWidth, figHeight, containers[..|containers| - 1], mapped);
      match RoleOf(figWidth, figHeight, c, mapped)
      case DataPanel(inner) => before[c.id := inner]
      case _ => before
  }

  /** The loop over the containers: the role each one gets, and the inner
      axes stored for the data panels. */
  method ClassifyPanels(figWidth: real, figHeight: real, containers: seq<Container>, mapped: set<string>)
    returns (roles: seq<Role>, plotAxes: map<string, Inset>)
    requires Positive(figWidth, figHeight, containers)
    ensures |roles| == |containers|
    ensures forall k :: 0 <= k < |containers| ==> roles[k] == RoleOf(figWidth, figHeight, containers[k], mapped)
    ensures plotAxes == PlotAxes(figWidth, figHeight, containers, mapped)
  {
    roles := [];
    plotAxes := map[];
    for i := 0 to |containers|
      invariant |roles| == i
      invariant forall k :: 0 <= k < i ==> roles[k] == RoleOf(figWidth, figHeight, containers[k], mapped)
      invariant plotAxes == PlotAxes(figWidth, figHeight, containers[..i], mapped)
    {
      assert containers[..i + 1][..i] == containers[..i];
      var c := containers[i];
      if c.id == "0" {
        roles := roles + [Legend];
        continue;
      }
      if c.id !in mapped {
        roles := roles + [Placeholder];
        continue;
      }
      var inner := MakeInnerPlotAxes(figWidth, figHeight, c, DataMarginFrac);
      InnerPlotAxesSpec(figWidth, figHeight, c, DataMarginFrac);
      roles := roles + [DataPanel(inner.value)];
      plotAxes := plotAxes[c.id := inner.value];
    }
    assert containers[..|containers|] == containers;
  }

  /** The container roles: "0" is the legend and nothing else, every other
      container is labelled, an unmapped one stays empty and a mapped one gets
      inner axes with the data margin. */
  lemma RoleOfSpec(figWidth: real, figHeight: real, c: Container, mapped: set<string>)
    requires figWidth > 0.0 && figHeight > 0.0 && c.width > 0.0 && c.height > 0.0
    ensures RoleOf(figWidth, figHeight, c, mapped).Legend? <==> c.id == "0"
    ensures Labelled(RoleOf(figWidth, figHeight, c, mapped)) <==> c.id != "0"
    ensures RoleOf(figWidth, figHeight, c, mapped).Placeholder? <==> c.id != "0" && c.id !in mapped
    ensures RoleOf(figWidth, figHeight, c, mapped).DataPanel? <==> c.id != "0" && c.id in mapped
    ensures RoleOf(figWidth, figHeight, c, mapped).DataPanel? ==>
              Ok(RoleOf(figWidth, figHeight, c, mapped).inner) == MakeInnerPlotAxes(figWidth, figHeight, c, DataMarginFrac)
              && EqualMargins(figWidth, figHeight, c, DataMarginFrac, RoleOf(figWidth, figHeight, c, mapped).inner)
  {
    InnerPlotAxesSpec(figWidth, figHeight, c, DataMarginFrac);
  }

  /** `plot_axes` holds exactly the mapped containers other than "0", and
      (container ids being the keys of a dictionary, so distinct) each holds
      its own container's inner axes. */
  lemma {:induction false} PlotAxesSpec(figWidth: real, figHeight: real, containers: seq<Container>, mapped: set<string>)
    requires Positive(figWidth, figHeight, containers)
    requires forall i, j :: 0 <= i < j < |containers| ==> containers[i].id != containers[j].id
    ensures forall p :: p in PlotAxes(figWidth, figHeight, containers, mapped) <==>
              p != "0" && p in mapped && exists k :: 0 <= k < |containers| && containers[k].id == p
    ensures forall k :: 0 <= k < |containers| && containers[k].id in PlotAxes(figWidth, figHeight, containers, mapped) ==>
              PlotAxes(figWidth, figHeight, containers, mapped)[containers[k].id] == DataInset(figWidth, figHeight, containers[k])
  {
    if containers != [] {
      var init := containers[..|containers| - 1];
      var c := containers[|containers| - 1];
      assert forall k :: 0 <= k < |init| ==> init[k] == containers[k];
      assert Positive(figWidth, figHeight, init) by {
        forall x | x in init ensures x.width > 0.0 && x.height > 0.0 {
          var k :| 0 <= k < |init| && init[k] == x;
          assert containers[k] == x;
        }
      }
      PlotAxesSpec(figWidth, figHeight, init, mapped);
      assert c in containers;
    }
  }

  /** After validation every mapped panel is a container; then every sheet
      whose panel is not "0" finds inner axes. */
  lemma MappedPanelsHaveAxes(figWidth: real, figHeight: real, containers: seq<Container>, sheet2panel: Dict)
    requires Positive(figWidth, figHeight, containers)
    requires forall i, j :: 0 <= i < j < |containers| ==> containers[i].id != containers[j].id
    requires forall k :: 0 <= k < |sheet2panel| ==> exists c :: c in containers && c.id == sheet2panel[k].1
    ensures var plotAxes := PlotAxes(figWidth, figHeight, containers, MappedPanels(sheet2panel));
            forall k :: 0 <= k < |sheet2panel| ==> (sheet2panel[k].1 in plotAxes <==> sheet2panel[k].1 != "0")
  {
    var mapped := MappedPanels(sheet2panel);
    PlotAxesSpec(figWidth, figHeight, containers, mapped);
    forall k | 0 <= k < |sheet2panel| && sheet2panel[k].1 != "0"
      ensures sheet2panel[k].1 in PlotAxes(figWidth, figHeight, containers, mapped)
    {
      var c :| c in containers && c.id == sheet2panel[k].1;
      var i :| 0 <= i < |containers| && containers[i] == c;
      assert DictValues(sheet2panel)[k] == sheet2panel[k].1;
    }
  }

  /** `set(spec.sheet2panel.values())`. */
  function MappedPanels(sheet2panel: Dict): set<string> {
    set p | p in DictValues(sheet2panel)
  }

  // ---------------------------------------------------------------------
  // The mosaic string

  /** The mosaic string handed to `subplot_mosaic`. */
  function Mosaic(rows: seq<string>): string {
    Join("\n", rows)
  }

  /** For layout rows as the loader normalises them (non-empty, stripped, no
      line break), the mosaic string splits back into exactly those rows. */
  lemma MosaicRows(rows: seq<string>)
    requires forall r :: r in rows ==> IoUtils.NormalRow(r) && NoLineBreak(r)
    ensures SplitLines(Mosaic(rows)) == rows
  {
    assert forall k :: 0 <= k < |rows| ==> rows[k] in rows;
    SplitLinesJoin(rows);
  }

  // ---------------------------------------------------------------------
  // The sheet loop of build_figure_from_spec and _plot_default_xy

  /** A sheet as `read_excel` returns it; only its column labels matter. */
  type Workbook = map<string, seq<XlsxParser.HeaderName>>

  /** The exception that ends the figure: `read_excel` on a missing sheet, the
      KeyError of a panel without inner axes, or the ValueError of
      `_plot_default_xy`. */
  datatype BuildError =
    | SheetNotFound(sheet: string)
    | NoInnerAxes(sheet: string, panel: string)
    | MissingXY(sheet: string, columns: seq<XlsxParser.HeaderName>)

  /** One line plot of a sheet's x and y columns into a panel's inner axes. */
  datatype Plot = Plot(sheet: string, panel: string, inner: Inset)

  /** `_plot_default_xy`'s check. */
  predicate HasXY(columns: seq<XlsxParser.HeaderName>) {
    XlsxParser.StrName("x") in columns && XlsxParser.StrName("y") in columns
  }

  /** One iteration: load the sheet, look up its panel, check the columns. */
  function PlotSheet(entry: (string, string), plotAxes: map<string, Inset>, workbook: Workbook): Result<Plot, BuildError> {
    if entry.0 !in workbook then Err(SheetNotFound(entry.0))
    else if entry.1 !in plotAxes then Err(NoInnerAxes(entry.0, entry.1))
    else if !HasXY(workbook[entry.0]) then Err(MissingXY(entry.0, workbook[entry.0]))
    else Ok(Plot(entry.0, entry.1, plotAxes[entry.1]))
  }

  /** The plots of the first entries, or the first exception. */
  function PlotSheets(entries: Dict, plotAxes: map<string, Inset>, workbook: Workbook): Result<seq<Plot>, BuildError> {
    if entries == [] then Ok([])
    else match PlotSheets(entries[..|entries| - 1], plotAxes, workbook)
      case Err(e) => Err(e)
      case Ok(plots) =>
        match PlotSheet(entries[|entries| - 1], plotAxes, workbook)
        case Err(e) => Err(e)
        case Ok(p) => Ok(plots + [p])
  }

  /** The sheet loop, stopping at the first exception. */
  method DrawSheets(entries: Dict, plotAxes: map<string, Inset>, workbook: Workbook)
    returns (r: Result<seq<Plot>, BuildError>)
    ensures r == PlotSheets(entries, plotAxes, workbook)
  {
    var plots: seq<Plot> := [];
    for k := 0 to |entries|
      invariant PlotSheets(entries[..k], plotAxes, workbook) == Ok(plots)
    {
      assert entries[..k + 1][..k] == entries[..k];
      var entry := entries[k];
      if entry.0 !in workbook {
        PlotSheetsStops(entries, plotAxes, workbook, k + 1);
        return Err(SheetNotFound(entry.0));
      }
      var columns := workbook[entry.0];
      if entry.1 !in plotAxes {
        PlotSheetsStops(entries, plotAxes, workbook, k + 1);
        return Err(NoInnerAxes(entry.0, entry.1));
      }
      var inner := plotAxes[entry.1];
      if !(XlsxParser.StrName("x") in columns && XlsxParser.StrName("y") in columns) {
        PlotSheetsStops(entries, plotAxes, workbook, k + 1);
        return Err(MissingXY(entry.0, columns));
      }
      plots := plots + [Plot(entry.0, entry.1, inner)];
    }
    assert entries[..|entries|] == entries;
    r := Ok(plots);
  }

  /** Once a prefix fails, every longer prefix fails the same way. */
  lemma PlotSheetsStops(entries: Dict, plotAxes: map<string, Inset>, workbook: Workbook, k: nat)
    requires k <= |entries| && PlotSheets(entries[..k], plotAxes, workbook).Err?
    ensures PlotSheets(entries, plotAxes, workbook) == PlotSheets(entries[..k], plotAxes, workbook)
    decreases |entries| - k
  {
    if k < |entries| {
      assert entries[..k + 1][..k] == entries[..k];
      PlotSheetsStops(entries, plotAxes, workbook, k + 1);
    } else {
      assert entries[..k] == entries;
    }
  }

  /** The figure fails exactly when some sheet does; the exception is that of
      the first such sheet, in mapping order. */
  lemma {:induction false} PlotSheetsErrors(entries: Dict, plotAxes: map<string, Inset>, workbook: Workbook)
    ensures PlotSheets(entries, plotAxes, workbook).Err? <==>
              exists k :: 0 <= k < |entries| && PlotSheet(entries[k], plotAxes, workbook).Err?
    ensures PlotSheets(entries, plotAxes, workbook).Err? ==>
              exists k :: && 0 <= k < |entries|
                          && (forall i :: 0 <= i < k ==> PlotSheet(entries[i], plotAxes, workbook).Ok?)
                          && PlotSheet(entries[k], plotAxes, workbook).Err?
                          && PlotSheets(entries, plotAxes, workbook).error == PlotSheet(entries[k], plotAxes, workbook).error
  {
    if entries != [] {
      var init := entries[..|entries| - 1];
      PlotSheetsErrors(init, plotAxes, workbook);
      assert forall i :: 0 <= i < |init| ==> init[i] == entries[i];
    }
  }

  /** When no sheet fails, each sheet in mapping order is drawn into its
      panel's inner axes. */
  lemma {:induction false} PlotSheetsOk(entries: Dict, plotAxes: map<string, Inset>, workbook: Workbook)
    requires PlotSheets(entries, plotAxes, workbook).Ok?
    ensures var plots := PlotSheets(entries, plotAxes, workbook).value;
            && |plots| == |entries|
            && forall k :: 0 <= k < |entries| ==>
                 && entries[k].0 in workbook && HasXY(workbook[entries[k].0]) && entries[k].1 in plotAxes
                 && plots[k] == Plot(entries[k].0, entries[k].1, plotAxes[entries[k].1])
  {
    if entries != [] {
      var init := entries[..|entries| - 1];
      PlotSheetsOk(init, plotAxes, workbook);
      assert forall i :: 0 <= i < |init| ==> init[i] == entries[i];
    }
  }

  /** A sheet mapped to the legend panel "0" never plots: once it loads, its
      lookup finds no inner axes. */
  lemma LegendSheetFails(figWidth: real, figHeight: real, containers: seq<Container>, mapped: set<string>,
                         sheet: string, workbook: Workbook)
    requires Positive(figWidth, figHeight, containers)
    requires forall i, j :: 0 <= i < j < |containers| ==> containers[i].id != containers[j].id
    requires sheet in workbook
    ensures PlotSheet((sheet, "0"), PlotAxes(figWidth, figHeight, containers, mapped), workbook) == Err(NoInnerAxes(sheet, "0"))
  {
    PlotAxesSpec(figWidth, figHeight, containers, mapped);
  }

  /** `build_figure_from_spec`, after `subplot_mosaic` has made the given
      containers: the mosaic string, each container's role, and the plots or
      the exception that ends the figure. */
  method BuildFigureFromSpec(figWidth: real, figHeight: real, spec: PlotSpec, containers: seq<Container>, workbook: Workbook)
    returns (mosaic: string, roles: seq<Role>, r: Result<seq<Plot>, BuildError>)
    requires Positive(figWidth, figHeight, containers)
    ensures mosaic == Mosaic(spec.layoutRows)
    ensures |roles| == |containers|
    ensures forall k :: 0 <= k < |containers| ==>
              roles[k] == RoleOf(figWidth, figHeight, containers[k], MappedPanels(spec.sheet2panel))
    ensures r == PlotSheets(spec.sheet2panel, PlotAxes(figWidth, figHeight, containers, MappedPanels(spec.sheet2panel)), workbook)
  {
    mosaic := Join("\n", spec.layoutRows);
    var mapped := set p | p in DictValues(spec.sheet2panel);
    var plotAxes;
    roles, plotAxes := ClassifyPanels(figWidth, figHeight, containers, mapped);
    r := DrawSheets(spec.sheet2panel, plotAxes, workbook);
  }
}
