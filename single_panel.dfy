/** demos/single_panel.py: a panel label in the top-left corner of the
    figure, with the axes shrunk so that the label, the y label and the
    tick labels all fit to its left. Measured extents are given, as in
    PanelLayout. */
module SinglePanel {
  import opened PanelLayout

  /** The margin every element to the left of the axes needs: pad, label,
      pad, y label, half a pad, the widest tick label (with or without
      text), half a pad. */
  function RequiredLeft(xPad: real, labelWidth: real, yLabel: Text, ticks: seq<Text>): real {
    xPad + labelWidth + xPad + WidthIfText(yLabel) + xPad / 2.0 + RunningMax(Widths(ticks)) + xPad / 2.0
  }

  /** The margin the label needs above the axes: the label between two pads. */
  function RequiredTop(yPad: real, labelHeight: real): real {
    yPad + labelHeight + yPad
  }

  /** The top edge the axes aim at: low enough for the label, never above
      where it was, and lowered further below a title that has height. */
  function TargetTop(base: Box, yPad: real, labelHeight: real, title: Text): real {
    var requiredTop := RequiredTop(yPad, labelHeight);
    var top := 1.0 - Max(1.0 - base.y1, requiredTop);
    var titleHeight := HeightIfText(title);
    if titleHeight > 0.0 then Min(top, 1.0 - requiredTop - titleHeight - yPad / 2.0) else top
  }

  function Min(a: real, b: real): real {
    if b < a then b else a
  }

  /** The new axes box and the label anchor. */
  function Adjusted(base: Box, xPad: real, yPad: real, labelWidth: real, labelHeight: real,
                    yLabel: Text, ticks: seq<Text>, title: Text): Gutter
  {
    var newLeft := Max(base.x0, RequiredLeft(xPad, labelWidth, yLabel, ticks));
    var newTop := TargetTop(base, yPad, labelHeight, title);
    var newWidth := Max(0.1, base.x1 - newLeft);
    var newHeight := Max(0.1, newTop - base.y0);
    Gutter(Box(newLeft, base.y0, newLeft + newWidth, base.y0 + newHeight), xPad, 1.0 - yPad - labelHeight)
  }

  /** What the adjustment promises. The left edge moves right just far enough
      for the required margin and never left; the bottom edge stays; the
      top edge never rises above where it was, leaves room for the label
      and, under a title with height, for the title and half a pad more. The
      size is always at least 0.1 each way, and where that floor does not
      bite the right edge stays and the top edge is the target. The label
      sits one pad in from the figure's top-left corner. */
  lemma AdjustedSpec(base: Box, xPad: real, yPad: real, labelWidth: real, labelHeight: real,
                     yLabel: Text, ticks: seq<Text>, title: Text)
    ensures var g := Adjusted(base, xPad, yPad, labelWidth, labelHeight, yLabel, ticks, title);
            var requiredLeft := RequiredLeft(xPad, labelWidth, yLabel, ticks);
            && base.x0 <= g.box.x0 && requiredLeft <= g.box.x0
            && (g.box.x0 == base.x0 || g.box.x0 == requiredLeft)
            && g.box.y0 == base.y0
            && g.box.x1 - g.box.x0 >= 0.1 && g.box.y1 - g.box.y0 >= 0.1
            && (base.x1 - g.box.x0 >= 0.1 ==> g.box.x1 == base.x1)
            && g.labelX == xPad && g.labelY == 1.0 - yPad - labelHeight
    ensures var g := Adjusted(base, xPad, yPad, labelWidth, labelHeight, yLabel, ticks, title);
            var top := TargetTop(base, yPad, labelHeight, title);
            && top <= base.y1 && top <= 1.0 - RequiredTop(yPad, labelHeight)
            && (title.text != [] && title.height > 0.0 ==>
                  top <= 1.0 - RequiredTop(yPad, labelHeight) - title.height - yPad / 2.0)
            && (top - base.y0 >= 0.1 ==> g.box.y1 == top)
  {
  }

  /** With non-negative pads the label keeps at least one pad clear of the
      axes: the y label, the ticks and the gaps fit between the label's right
      edge and the axes, and an axes whose height floor does not bite ends
      at least a pad below the label. */
  lemma LabelClearOfAxes(base: Box, xPad: real, yPad: real, labelWidth: real, labelHeight: real,
                         yLabel: Text, ticks: seq<Text>, title: Text)
    requires xPad >= 0.0 && yPad >= 0.0 && yLabel.width >= 0.0
    ensures var g := Adjusted(base, xPad, yPad, labelWidth, labelHeight, yLabel, ticks, title);
            && g.labelX + labelWidth + xPad + WidthIfText(yLabel) + RunningMax(Widths(ticks)) <= g.box.x0
            && (TargetTop(base, yPad, labelHeight, title) - base.y0 >= 0.1 ==> g.box.y1 + yPad <= g.labelY)
  {
    RunningMaxSpec(Widths(ticks));
  }

  /** The tick loop here: the widest tick label, whether or not it has text. */
  method MaxTickWidthAll(ticks: seq<Text>) returns (w: real)
    ensures w == RunningMax(Widths(ticks))
  {
    w := 0.0;
    for i := 0 to |ticks|
      invariant w == RunningMax(Widths(ticks[..i]))
    {
      assert ticks[..i + 1][..i] == ticks[..i];
      w := Max(w, ticks[i].width);
    }
    assert ticks[..|ticks|] == ticks;
  }

  /** `add_panel_label_with_adjustment`, with the measured label extent
      given. The temporary label it measures is removed again, so the figure
      gains only the final label. */
  method AddPanelLabelWithAdjustment(fig: Figure, ax: Axes, panelLabel: string, fontsize: real,
                                     paddingFactor: real, labelWidth: real, labelHeight: real)
    requires fig.widthInches > 0.0 && fig.heightInches > 0.0
    modifies ax, fig
    ensures var pad := Padding(fontsize, paddingFactor, fig);
            var g := Adjusted(old(ax.position), pad.0, pad.1, labelWidth, labelHeight,
                              ax.yLabel, ax.yTickLabels, ax.title);
            && ax.position == g.box
            && fig.texts == old(fig.texts) + [Placed(panelLabel, g.labelX, g.labelY)]
  {
    var paddingInches := (fontsize / 72.0) * paddingFactor;
    var xPad := paddingInches / fig.widthInches;
    var yPad := paddingInches / fig.heightInches;
    var yLabelWidth := if ax.yLabel.text != [] then ax.yLabel.width else 0.0;
    var maxTickWidth := MaxTickWidthAll(ax.yTickLabels);
    var pos := ax.position;
    var labelRightEdge := xPad + labelWidth;
    var yLabelLeftEdge := labelRightEdge + xPad;
    var requiredLeft := yLabelLeftEdge + yLabelWidth + xPad / 2.0 + maxTickWidth + xPad / 2.0;
    var titleHeight := if ax.title.text != [] then ax.title.height else 0.0;
    var requiredTop := yPad + labelHeight + yPad;
    var newLeft := Max(pos.x0, requiredLeft);
    var newBottom := pos.y0;
    var newTop := 1.0 - Max(1.0 - pos.y1, requiredTop);
    if titleHeight > 0.0 {
      newTop := Min(newTop, 1.0 - requiredTop - titleHeight - yPad / 2.0);
    }
    var newWidth := Max(0.1, pos.x1 - newLeft);
    var newHeight := Max(0.1, newTop - newBottom);
    ax.position := Box(newLeft, newBottom, newLeft + newWidth, newBottom + newHeight);
    fig.texts := fig.texts + [Placed(panelLabel, xPad, 1.0 - yPad - labelHeight)];
  }
}
