/** demos/signif_single_group.py: the tick font size used for the
    significance marks and the proportions of a bracket derived from one
    measured glyph. Measuring the glyph (drawing an invisible "A" and
    converting its pixel box to data units) is done by matplotlib; here the
    measured height and width, already in data units, are inputs. */
module GlyphGeometry {
  import opened Wrappers

  /** A value of `rcParams['ytick.labelsize']` or `rcParams['font.size']`:
      a size in points, or a named size such as "medium". */
  datatype RcValue = Points(size: real) | Named(name: string)

  /** The tick font size: the size of the first y tick label when there is
      one; otherwise `rcParams.get('ytick.labelsize',
      rcParams.get('font.size', 10))`, where a named size counts as 10. */
  function TickFontsize(firstTick: Option<real>, ytickLabelsize: Option<RcValue>,
                        fontSize: Option<RcValue>): (fs: real)
    ensures firstTick.Some? ==> fs == firstTick.value
    ensures firstTick.None? && ytickLabelsize.Some? && ytickLabelsize.value.Points? ==>
              fs == ytickLabelsize.value.size
    ensures firstTick.None? && ytickLabelsize.None? && fontSize.Some? && fontSize.value.Points? ==>
              fs == fontSize.value.size
    ensures firstTick.None? && ytickLabelsize.Some? && ytickLabelsize.value.Named? ==> fs == 10.0
    ensures firstTick.None? && ytickLabelsize.None? && fontSize.Some? && fontSize.value.Named? ==>
              fs == 10.0
    ensures firstTick.None? && ytickLabelsize.None? && fontSize.None? ==> fs == 10.0
    ensures fs == 10.0 || (firstTick.Some? && fs == firstTick.value)
            || (ytickLabelsize.Some? && ytickLabelsize.value == Points(fs))
            || (fontSize.Some? && fontSize.value == Points(fs))
  {
    match firstTick
    case Some(size) => size
    case None =>
      var v := match ytickLabelsize
               case Some(y) => y
               case None => (match fontSize case Some(f) => f case None => Points(10.0));
      match v
      case Named(_) => 10.0
      case Points(size) => size
  }

  /** The frozen `AsteriskBarDimensions` record. */
  datatype Dimensions = Dimensions(asteriskFontsize: real, asteriskHeight: real,
                                   tipLength: real, dashWidth: real)

  /** `asterisk_bar_geometry` after measurement: `fontHeight` and
      `fontWidth` are the measured glyph's height and width in data units. */
  function AsteriskBarGeometry(tickFontsize: real, fontHeight: real, fontWidth: real): (d: Dimensions)
  {
    Dimensions(asteriskFontsize := tickFontsize * 1.2,
               asteriskHeight := fontHeight * 1.2 / 3.0,
               tipLength := fontHeight / 3.0,
               dashWidth := 2.0 * fontWidth)
  }

  /** The proportions between the parts of a bracket: the tip is a third of
      the glyph height, the asterisk 0.4 of it (so 1.2 tips), the dash two
      glyph widths and the asterisk font 1.2 tick fonts. For a glyph of
      positive size every part is positive. */
  lemma GeometryProportions(tickFontsize: real, fontHeight: real, fontWidth: real)
    ensures var d := AsteriskBarGeometry(tickFontsize, fontHeight, fontWidth);
            && 3.0 * d.tipLength == fontHeight
            && d.asteriskHeight == 0.4 * fontHeight
            && d.asteriskHeight == 1.2 * d.tipLength
            && d.dashWidth == 2.0 * fontWidth
            && d.asteriskFontsize == 1.2 * tickFontsize
            && (fontHeight > 0.0 ==> 0.0 < d.tipLength < d.asteriskHeight)
            && (fontWidth > 0.0 ==> d.dashWidth > fontWidth)
  {
  }
}
