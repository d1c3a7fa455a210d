/** mplib/layout.py: the largest measured panel label, and the gutter
    `add_panel_label` cuts into an axes for its label. Rendering and
    measuring are not modelled: every text element comes with its measured
    extent in figure fractions, and the figure size in inches is given. */
module PanelLayout {
  import opened Wrappers

  /** A text element: its string and measured width and height. */
  datatype Text = Text(text: string, width: real, height: real)

  /** An axes position in figure fractions (a Bbox: left, bottom, right,
      top). */
  datatype Box = Box(x0: real, y0: real, x1: real, y1: real)

  /** A text placed on the figure at a point in figure fractions. */
  datatype Placed = Placed(text: string, x: real, y: real)

  /** The figure: its size in inches and the texts placed on it. */
  class Figure {
    const widthInches: real
    const heightInches: real
    var texts: seq<Placed>

    constructor(widthInches: real, heightInches: real)
      ensures this.widthInches == widthInches && this.heightInches == heightInches
      ensures texts == []
    {
      this.widthInches := widthInches;
      this.heightInches := heightInches;
      texts := [];
    }
  }

  /** An axes: its position, which the label functions move, and the
      measured y label, y tick labels and title. */
  class Axes {
    var position: Box
    const yLabel: Text
    const yTickLabels: seq<Text>
    const title: Text

    constructor(position: Box, yLabel: Text, yTickLabels: seq<Text>, title: Text)
      ensures this.position == position && this.yLabel == yLabel
      ensures this.yTickLabels == yTickLabels && this.title == title
    {
      this.position := position;
      this.yLabel := yLabel;
      this.yTickLabels := yTickLabels;
      this.title := title;
    }
  }

  // ---------------------------------------------------------------------
  // Running maxima

  function Max(a: real, b: real): real {
    if b > a then b else a
  }

  /** `m = 0.0; for x in xs: m = max(m, x)`. */
  function RunningMax(xs: seq<real>): real {
    if xs == [] then 0.0 else Max(RunningMax(xs[..|xs| - 1]), xs[|xs| - 1])
  }

  /** The running maximum is at least 0 and every element, and is 0 or one
      of the elements. */
  lemma {:induction false} RunningMaxSpec(xs: seq<real>)
    ensures RunningMax(xs) >= 0.0
    ensures forall k :: 0 <= k < |xs| ==> xs[k] <= RunningMax(xs)
    ensures RunningMax(xs) == 0.0 || RunningMax(xs) in xs
  {
    if xs != [] {
      var init := xs[..|xs| - 1];
      RunningMaxSpec(init);
      assert forall k :: 0 <= k < |init| ==> init[k] == xs[k];
      if RunningMax(init) in init {
        var k :| 0 <= k < |init| && init[k] == RunningMax(init);
        assert xs[k] == RunningMax(init);
      }
    }
  }

  function Widths(ts: seq<Text>): (r: seq<real>)
    ensures |r| == |ts|
    ensures forall k :: 0 <= k < |ts| ==> r[k] == ts[k].width
  {
    if ts == [] then [] else Widths(ts[..|ts| - 1]) + [ts[|ts| - 1].width]
  }

  function Heights(ts: seq<Text>): (r: seq<real>)
    ensures |r| == |ts|
    ensures forall k :: 0 <= k < |ts| ==> r[k] == ts[k].height
  {
    if ts == [] then [] else Heights(ts[..|ts| - 1]) + [ts[|ts| - 1].height]
  }

  /** The widths of the elements whose text is not empty, in order. */
  function TextWidths(ts: seq<Text>): seq<real> {
    if ts == [] then []
    else TextWidths(ts[..|ts| - 1]) + (if ts[|ts| - 1].text != [] then [ts[|ts| - 1].width] else [])
  }

  lemma {:induction false} TextWidthsSpec(ts: seq<Text>)
    ensures forall w :: w in TextWidths(ts) <==> exists k :: 0 <= k < |ts| && ts[k].text != [] && ts[k].width == w
  {
    if ts != [] {
      var init := ts[..|ts| - 1];
      TextWidthsSpec(init);
      assert forall k :: 0 <= k < |init| ==> init[k] == ts[k];
    }
  }

  /** `calculate_max_label_metrics`: the widest and tallest of the labels,
      (0, 0) for none. */
  method CalculateMaxLabelMetrics(labels: seq<Text>) returns (maxWidth: real, maxHeight: real)
    ensures maxWidth == RunningMax(Widths(labels)) && maxHeight == RunningMax(Heights(labels))
  {
    maxWidth := 0.0;
    maxHeight := 0.0;
    for i := 0 to |labels|
      invariant maxWidth == RunningMax(Widths(labels[..i]))
      invariant maxHeight == RunningMax(Heights(labels[..i]))
    {
      assert labels[..i + 1][..i] == labels[..i];
      maxWidth := Max(maxWidth, labels[i].width);
      maxHeight := Max(maxHeight, labels[i].height);
    }
    assert labels[..|labels|] == labels;
  }

  /** The metrics are the component-wise maxima: at least every label's
      extent and 0, and each 0 or some label's extent. */
  lemma MaxLabelMetricsSpec(labels: seq<Text>)
    ensures var w := RunningMax(Widths(labels));
            && w >= 0.0 && (forall k :: 0 <= k < |labels| ==> labels[k].width <= w)
            && (w == 0.0 || exists k :: 0 <= k < |labels| && labels[k].width == w)
    ensures var h := RunningMax(Heights(labels));
            && h >= 0.0 && (forall k :: 0 <= k < |labels| ==> labels[k].height <= h)
            && (h == 0.0 || exists k :: 0 <= k < |labels| && labels[k].height == h)
  {
    var ws := Widths(labels);
    var hs := Heights(labels);
    RunningMaxSpec(ws);
    RunningMaxSpec(hs);
    if RunningMax(ws) != 0.0 {
      var k :| 0 <= k < |ws| && ws[k] == RunningMax(ws);
      assert labels[k].width == RunningMax(ws);
    }
    if RunningMax(hs) != 0.0 {
      var k :| 0 <= k < |hs| && hs[k] == RunningMax(hs);
      assert labels[k].height == RunningMax(hs);
    }
  }

  /** The tick loop of `add_panel_label`: the widest tick label with text. */
  method MaxTickWidth(ticks: seq<Text>) returns (w: real)
    ensures w == RunningMax(TextWidths(ticks))
  {
    w := 0.0;
    for i := 0 to |ticks|
      invariant w == RunningMax(TextWidths(ticks[..i]))
    {
      assert ticks[..i + 1][..i] == ticks[..i];
      assert TextWidths(ticks[..i + 1]) == TextWidths(ticks[..i]) + (if ticks[i].text != [] then [ticks[i].width] else []);
      if ticks[i].text != [] {
        var xs := TextWidths(ticks[..i]);
        assert (xs + [ticks[i].width])[..|xs|] == xs;
        w := Max(w, ticks[i].width);
      } else {
        assert TextWidths(ticks[..i]) + [] == TextWidths(ticks[..i]);
      }
    }
    assert ticks[..|ticks|] == ticks;
  }

  /** Only ticks with text count: the width is at least every such tick's
      and is 0 or one of theirs, so it is 0 when no tick has text. */
  lemma TickWidthSpec(ticks: seq<Text>)
    ensures var w := RunningMax(TextWidths(ticks));
            && w >= 0.0
            && (forall k :: 0 <= k < |ticks| && ticks[k].text != [] ==> ticks[k].width <= w)
            && (w == 0.0 || exists k :: 0 <= k < |ticks| && ticks[k].text != [] && ticks[k].width == w)
  {
    var ws := TextWidths(ticks);
    RunningMaxSpec(ws);
    TextWidthsSpec(ticks);
    forall k | 0 <= k < |ticks| && ticks[k].text != [] ensures ticks[k].width <= RunningMax(ws) {
      assert ticks[k].width in ws;
    }
  }

  // ---------------------------------------------------------------------
  // add_panel_label

  /** The padding in figure fractions: `(fontsize / 72) * padding_factor`
      inches over the figure width (x) and height (y). */
  function Padding(fontsize: real, paddingFactor: real, fig: Figure): (pad: (real, real))
    requires fig.widthInches > 0.0 && fig.heightInches > 0.0
    ensures pad.0 * fig.widthInches == (fontsize / 72.0) * paddingFactor
    ensures pad.1 * fig.heightInches == (fontsize / 72.0) * paddingFactor
  {
    var inches := (fontsize / 72.0) * paddingFactor;
    (inches / fig.widthInches, inches / fig.heightInches)
  }

  /** The extent of a text that is counted only when it has text. */
  function WidthIfText(t: Text): real { if t.text != [] then t.width else 0.0 }
  function HeightIfText(t: Text): real { if t.text != [] then t.height else 0.0 }

  /** `required_left_inset`: pad, label, then the y label and the widest tick
      label, each followed by half a pad. */
  function LeftInset(xPad: real, labelWidth: real, yLabel: Text, ticks: seq<Text>): real {
    xPad + labelWidth + xPad / 2.0 + WidthIfText(yLabel) + xPad / 2.0 + RunningMax(TextWidths(ticks)) + xPad / 2.0
  }

  /** `required_top_inset`: the label between two pads, then the title. */
  function TopInset(yPad: real, labelHeight: real, title: Text): real {
    yPad + labelHeight + yPad + HeightIfText(title)
  }

  /** The label geometry: the new axes box and the label's anchor, or `None`
      when the panel is too small. */
  datatype Gutter = Gutter(box: Box, labelX: real, labelY: real)

  function PanelGutter(base: Box, xPad: real, yPad: real, labelWidth: real, labelHeight: real,
                       yLabel: Text, ticks: seq<Text>, title: Text): Option<Gutter>
  {
    var newLeft := base.x0 + LeftInset(xPad, labelWidth, yLabel, ticks);
    var newTop := base.y1 - TopInset(yPad, labelHeight, title);
    var newWidth := base.x1 - newLeft;
    var newHeight := newTop - base.y0;
    if newWidth <= 0.0 || newHeight <= 0.0 then None
    else Some(Gutter(Box(newLeft, base.y0, newLeft + newWidth, base.y0 + newHeight),
                     base.x0 + xPad, base.y1 - yPad - labelHeight))
  }

  /** What `add_panel_label` promises: it gives up exactly when the
      requested insets leave no positive width or height; otherwise the
      bottom and right edges stay, the left edge moves in by the left inset
      and the top down by the top inset, and the label is anchored one pad
      in from the old top-left corner. With non-negative pads and extents
      the new box lies inside the old one and the label sits in the gutter:
      left of the new left edge and above the new top edge. */
  lemma PanelGutterSpec(base: Box, xPad: real, yPad: real, labelWidth: real, labelHeight: real,
                        yLabel: Text, ticks: seq<Text>, title: Text)
    ensures var g := PanelGutter(base, xPad, yPad, labelWidth, labelHeight, yLabel, ticks, title);
            var left := LeftInset(xPad, labelWidth, yLabel, ticks);
            var top := TopInset(yPad, labelHeight, title);
            && (g.None? <==> base.x1 - (base.x0 + left) <= 0.0 || (base.y1 - top) - base.y0 <= 0.0)
            && (g.Some? ==>
                  && g.value.box == Box(base.x0 + left, base.y0, base.x1, base.y1 - top)
                  && g.value.box.x0 < g.value.box.x1 && g.value.box.y0 < g.value.box.y1
                  && g.value.labelX == base.x0 + xPad && g.value.labelY == base.y1 - yPad - labelHeight)
    ensures var g := PanelGutter(base, xPad, yPad, labelWidth, labelHeight, yLabel, ticks, title);
            g.Some? && xPad >= 0.0 && yPad >= 0.0 && labelWidth >= 0.0 && labelHeight >= 0.0
            && yLabel.width >= 0.0 && title.height >= 0.0 ==>
              && base.x0 <= g.value.box.x0 && g.value.box.y1 <= base.y1
              && g.value.labelX + labelWidth <= g.value.box.x0
              && g.value.box.y1 <= g.value.labelY && g.value.labelY + labelHeight <= base.y1
  {
    RunningMaxSpec(TextWidths(ticks));
  }

  /** `add_panel_label`. When the panel is too small it leaves the axes and
      the figure alone (the warning is not modelled); otherwise it moves the
      axes and places the label on the figure. */
  method AddPanelLabel(fig: Figure, ax: Axes, panelLabel: string, fontsize: real, paddingFactor: real,
                       fixedLabelWidth: real, fixedLabelHeight: real)
    requires fig.widthInches > 0.0 && fig.heightInches > 0.0
    modifies ax, fig
    ensures var pad := Padding(fontsize, paddingFactor, fig);
            var g := PanelGutter(old(ax.position), pad.0, pad.1, fixedLabelWidth, fixedLabelHeight,
                                 ax.yLabel, ax.yTickLabels, ax.title);
            && (g.None? ==> ax.position == old(ax.position) && fig.texts == old(fig.texts))
            && (g.Some? ==> ax.position == g.value.box &&
                            fig.texts == old(fig.texts) + [Placed(panelLabel, g.value.labelX, g.value.labelY)])
  {
    var base := ax.position;
    var inches := (fontsize / 72.0) * paddingFactor;
    var xPad := inches / fig.widthInches;
    var yPad := inches / fig.heightInches;
    var yLabelWidth := if ax.yLabel.text != [] then ax.yLabel.width else 0.0;
    var maxTickWidth := MaxTickWidth(ax.yTickLabels);
    var titleHeight := if ax.title.text != [] then ax.title.height else 0.0;
    var gap := xPad / 2.0;
    var requiredLeft := xPad + fixedLabelWidth + gap + yLabelWidth + gap + maxTickWidth + gap;
    var requiredTop := yPad + fixedLabelHeight + yPad + titleHeight;
    var newLeft := base.x0 + requiredLeft;
    var newTop := base.y1 - requiredTop;
    var newWidth := base.x1 - newLeft;
    var newHeight := newTop - base.y0;
    if newWidth <= 0.0 || newHeight <= 0.0 {
      return;
    }
    ax.position := Box(newLeft, base.y0, newLeft + newWidth, base.y0 + newHeight);
    fig.texts := fig.texts + [Placed(panelLabel, base.x0 + xPad, base.y1 - yPad - fixedLabelHeight)];
  }
}
