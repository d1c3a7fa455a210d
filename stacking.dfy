/** demos/signifi_single_group.py, `significance_annotation`: stacking the
    significance brackets of one bar chart. The pairs are drawn in order of
    their span; every bar column keeps a running height that starts at the
    tallest bar, each bracket sits one level spacing above the highest
    column it spans, and afterwards every column it spans is raised above
    the bracket and its symbol. Drawing is recorded as `Bracket` values;
    the final `set_ylim` top is returned. */
module Stacking {
  import opened Wrappers
  import opened PairOrder
  import Significance

  /** The sizes the drawing uses, in data units: the asterisk font size in
      points, the asterisk height and the dash length. */
  datatype Metrics = Metrics(fontsize: real, height: real, dashWidth: real)

  /** The axis conversions in `significance_annotation`: the asterisk font is
      1.2 tick fonts; a point is 1/72 inch, and an inch of axes is
      `range / axes_inches` data units vertically (for the height) and
      horizontally (for the dash, 0.6 of the font size wide). */
  function AxesMetrics(tickFontsize: real, yRange: real, axHeightInches: real,
                       xRange: real, axWidthInches: real): (m: Metrics)
    requires axHeightInches > 0.0 && axWidthInches > 0.0
    ensures m.fontsize == 1.2 * tickFontsize
    ensures m.height * 72.0 * axHeightInches == m.fontsize * yRange
    ensures m.dashWidth * 72.0 * axWidthInches == 0.6 * m.fontsize * xRange
  {
    var fs := tickFontsize * 1.2;
    Metrics(fs, fs / 72.0 * (yRange / axHeightInches), fs * 0.6 / 72.0 * (xRange / axWidthInches))
  }

  /** The vertical gap between stacked levels: 2.5 asterisk heights. */
  function LevelSpacing(m: Metrics): real {
    m.height * 2.5
  }

  /** What is drawn above a bracket: a dash for "-", the stars otherwise. */
  datatype Mark =
    | Dash(y: real, xFrom: real, xTo: real)
    | Stars(x: real, y: real, symbol: string, fontsize: real)

  /** One drawn bracket for the bars `pair.i` and `pair.j` (drawn at
      x = i and x = j, the bar positions being `arange(n_bars)`): the
      horizontal line at `yLine`, two tips down to `tipBottom`, and its
      mark. */
  datatype Bracket = Bracket(pair: Pair, yLine: real, tipBottom: real, mark: Mark)

  /** What `significance_annotation` leaves behind: the brackets in drawing
      order, the new top of the y axis and the final running height of
      every column (its local `max_heights`). */
  datatype Annotation = Annotation(brackets: seq<Bracket>, yTop: real, columns: seq<real>)

  function Max(a: real, b: real): real {
    if b > a then b else a
  }

  /** `max(list_of_heights)`. */
  function MaxOf(s: seq<real>): (r: real)
    requires |s| > 0
    ensures forall k :: 0 <= k < |s| ==> s[k] <= r
    ensures exists k :: 0 <= k < |s| && s[k] == r
  {
    if |s| == 1 then s[0]
    else
      var t := MaxOf(s[1..]);
      assert forall k :: 1 <= k < |s| ==> s[k] == s[1..][k - 1];
      Max(s[0], t)
  }

  function Lo(pr: Pair): int { if pr.i <= pr.j then pr.i else pr.j }

  function Hi(pr: Pair): int { if pr.i <= pr.j then pr.j else pr.i }

  /** The pair indexes two bars of a chart with `n` bars. */
  predicate InRange(pr: Pair, n: int) {
    0 <= pr.i < n && 0 <= pr.j < n
  }

  /** `max(max_heights[lo:hi + 1])`. */
  function SpanMax(mh: seq<real>, lo: int, hi: int): real
    requires 0 <= lo <= hi < |mh|
    decreases hi - lo
  {
    if lo == hi then mh[lo] else Max(mh[lo], SpanMax(mh, lo + 1, hi))
  }

  /** The span maximum is at least every column of the span and is one of
      them. */
  lemma {:induction false} SpanMaxSpec(mh: seq<real>, lo: int, hi: int)
    requires 0 <= lo <= hi < |mh|
    ensures forall k :: lo <= k <= hi ==> mh[k] <= SpanMax(mh, lo, hi)
    ensures exists k :: lo <= k <= hi && mh[k] == SpanMax(mh, lo, hi)
    decreases hi - lo
  {
    if lo < hi {
      SpanMaxSpec(mh, lo + 1, hi);
      var k :| lo + 1 <= k <= hi && mh[k] == SpanMax(mh, lo + 1, hi);
      if mh[lo] < mh[k] {
        assert mh[k] == SpanMax(mh, lo, hi);
      } else {
        assert mh[lo] == SpanMax(mh, lo, hi);
      }
    } else {
      assert mh[lo] == SpanMax(mh, lo, hi);
    }
  }

  /** The running heights after one bracket whose top is `top` has been
      drawn over the columns `lo..hi`. */
  function Raise(mh: seq<real>, lo: int, hi: int, top: real): (r: seq<real>)
    ensures |r| == |mh|
  {
    if mh == [] then []
    else [if lo <= 0 <= hi then Max(mh[0], top) else mh[0]] + Raise(mh[1..], lo - 1, hi - 1, top)
  }

  /** Raising lifts each column of the span to at least `top` and leaves
      every other column alone. */
  lemma {:induction false} RaiseSpec(mh: seq<real>, lo: int, hi: int, top: real)
    ensures forall k :: 0 <= k < |mh| ==>
              Raise(mh, lo, hi, top)[k] == (if lo <= k <= hi then Max(mh[k], top) else mh[k])
  {
    if mh != [] {
      RaiseSpec(mh[1..], lo - 1, hi - 1, top);
      var r := Raise(mh, lo, hi, top);
      forall k | 1 <= k < |mh|
        ensures r[k] == (if lo <= k <= hi then Max(mh[k], top) else mh[k])
      {
        assert r[k] == Raise(mh[1..], lo - 1, hi - 1, top)[k - 1];
        assert mh[k] == mh[1..][k - 1];
      }
    }
  }

  /** The state of the drawing loop: the running heights, the brackets
      drawn so far and `top_y`. */
  datatype State = State(heights: seq<real>, brackets: seq<Bracket>, top: real)

  /** The line height of the bracket for `pr` over the running heights. */
  function LineY(mh: seq<real>, pr: Pair, m: Metrics): real
    requires InRange(pr, |mh|)
  {
    SpanMax(mh, Lo(pr), Hi(pr)) + LevelSpacing(m)
  }

  /** The height reserved by a bracket at `yLine`: its symbol plus one more
      level spacing. */
  function NewTop(yLine: real, m: Metrics): real {
    yLine + m.height + LevelSpacing(m)
  }

  /** The recorded drawing of one bracket with p-value `p`. */
  function BracketFor(pr: Pair, yLine: real, p: real, m: Metrics): Bracket {
    var x1 := pr.i as real;
    var x2 := pr.j as real;
    var xMid := (x1 + x2) / 2.0;
    var sym := Significance.Symbol(p);
    var mark := if sym == "-" then Dash(yLine + m.height, xMid - m.dashWidth / 2.0, xMid + m.dashWidth / 2.0)
                else Stars(xMid, yLine - m.height * 0.5, sym, m.fontsize);
    Bracket(pr, yLine, yLine - m.height / 2.0, mark)
  }

  /** One iteration of the drawing loop. */
  function Step(st: State, pr: Pair, p: real, m: Metrics): (r: State)
    requires InRange(pr, |st.heights|)
    ensures |r.heights| == |st.heights|
    ensures |r.brackets| == |st.brackets| + 1
  {
    var yLine := LineY(st.heights, pr, m);
    var newTop := NewTop(yLine, m);
    State(Raise(st.heights, Lo(pr), Hi(pr), newTop),
          st.brackets + [BracketFor(pr, yLine, p, m)],
          if st.top < newTop then newTop else st.top)
  }

  /** Every pair of `ps` has a p-value and indexes two of the `n` bars. */
  predicate Drawable(n: int, ps: seq<Pair>, pv: map<Pair, real>) {
    forall k :: 0 <= k < |ps| ==> ps[k] in pv && InRange(ps[k], n)
  }

  /** The drawing loop after its first `count` iterations over the pairs
      `ps`, starting from running heights `h0`, no brackets and `top_y = 0`. */
  function Run(h0: seq<real>, ps: seq<Pair>, pv: map<Pair, real>, m: Metrics, count: nat): (r: State)
    requires Drawable(|h0|, ps, pv)
    requires count <= |ps|
    ensures |r.heights| == |h0|
    ensures |r.brackets| == count
  {
    if count == 0 then State(h0, [], 0.0)
    else Step(Run(h0, ps, pv, m, count - 1), ps[count - 1], pv[ps[count - 1]], m)
  }

  /** Every column starts at the tallest bar. */
  function Initial(heights: seq<real>): (h0: seq<real>)
    requires |heights| > 0
    ensures |h0| == |heights|
  {
    seq(|heights|, _ => MaxOf(heights))
  }

  lemma SortedDrawable(n: int, keys: seq<Pair>, pv: map<Pair, real>)
    requires Drawable(n, keys, pv)
    ensures Drawable(n, SortBySpan(keys), pv)
  {
    var s := SortBySpan(keys);
    forall k | 0 <= k < |s| ensures s[k] in pv && InRange(s[k], n) {
      assert s[k] in multiset(keys);
      var j :| 0 <= j < |keys| && keys[j] == s[k];
    }
  }

  /** The result `significance_annotation` is specified to produce. */
  function Annotated(heights: seq<real>, keys: seq<Pair>, pv: map<Pair, real>, m: Metrics): Annotation
    requires |heights| > 0
    requires Drawable(|heights|, keys, pv)
  {
    var sorted := SortBySpan(keys);
    SortedDrawable(|heights|, keys, pv);
    var st := Run(Initial(heights), sorted, pv, m, |sorted|);
    Annotation(st.brackets, st.top, st.heights)
  }

  /** The inner loop of one iteration: raise the columns `lo..hi` of the
      running heights to at least `top`. */
  method RaiseColumns(maxHeights: array<real>, lo: int, hi: int, top: real)
    requires 0 <= lo <= hi < maxHeights.Length
    modifies maxHeights
    ensures maxHeights[..] == Raise(old(maxHeights[..]), lo, hi, top)
  {
    ghost var before := maxHeights[..];
    var k := lo;
    while k <= hi
      invariant lo <= k <= hi + 1
      invariant forall c :: 0 <= c < maxHeights.Length ==>
                  maxHeights[c] == (if lo <= c < k then Max(before[c], top) else before[c])
    {
      maxHeights[k] := Max(maxHeights[k], top);
      k := k + 1;
    }
    RaiseSpec(before, lo, hi, top);
  }

  /** The body of the drawing loop for the pair `pr` with p-value `p`:
      place the line one level spacing above the highest spanned column,
      record the bracket and its mark, raise the spanned columns and
      `top_y`. */
  method DrawPair(maxHeights: array<real>, pr: Pair, p: real, m: Metrics, brackets: seq<Bracket>, topY: real)
    returns (brackets': seq<Bracket>, topY': real)
    requires InRange(pr, maxHeights.Length)
    modifies maxHeights
    ensures State(maxHeights[..], brackets', topY') == Step(State(old(maxHeights[..]), brackets, topY), pr, p, m)
  {
    var yLine := SpanMax(maxHeights[..], Lo(pr), Hi(pr)) + LevelSpacing(m);
    var newTop := NewTop(yLine, m);
    RaiseColumns(maxHeights, Lo(pr), Hi(pr), newTop);
    brackets' := brackets + [BracketFor(pr, yLine, p, m)];
    topY' := topY;
    if topY' < newTop {
      topY' := newTop;
    }
  }

  /** `significance_annotation`: `heights` are the bar heights, `keys` the
      keys of the p-value dictionary in insertion order and `pValues` its
      entries. An empty chart makes `max(list_of_heights)` raise, modelled
      as `None`. */
  method SignificanceAnnotation(heights: seq<real>, keys: seq<Pair>, pValues: map<Pair, real>, m: Metrics)
    returns (r: Option<Annotation>)
    requires Drawable(|heights|, keys, pValues)
    ensures r.None? <==> |heights| == 0
    ensures r.Some? ==> r.value == Annotated(heights, keys, pValues, m)
  {
    if |heights| == 0 {
      return None;
    }
    var sorted := SortBySpan(keys);
    SortedDrawable(|heights|, keys, pValues);
    var maxBar := MaxOf(heights);
    var maxHeights := new real[|heights|](_ => maxBar);
    assert maxHeights[..] == Initial(heights);
    var brackets, topY := DrawAll(maxHeights, sorted, pValues, m);
    r := Some(Annotation(brackets, topY, maxHeights[..]));
  }

  /** The drawing loop of `significance_annotation` over the sorted pairs,
      on the running heights `maxHeights`. */
  method DrawAll(maxHeights: array<real>, sorted: seq<Pair>, pValues: map<Pair, real>, m: Metrics)
    returns (brackets: seq<Bracket>, topY: real)
    requires Drawable(maxHeights.Length, sorted, pValues)
    modifies maxHeights
    ensures State(maxHeights[..], brackets, topY) == Run(old(maxHeights[..]), sorted, pValues, m, |sorted|)
  {
    ghost var h0 := maxHeights[..];
    brackets := [];
    topY := 0.0;
    var idx := 0;
    while idx < |sorted|
      invariant 0 <= idx <= |sorted|
      invariant Run(h0, sorted, pValues, m, idx) == State(maxHeights[..], brackets, topY)
    {
      var pr := sorted[idx];
      brackets, topY := DrawPair(maxHeights, pr, pValues[pr], m, brackets, topY);
      idx := idx + 1;
    }
  }

  // ---------------------------------------------------------------------
  // Properties of the drawing loop

  /** Brackets already drawn are never changed by later iterations. */
  lemma {:induction false} RunPrefix(h0: seq<real>, ps: seq<Pair>, pv: map<Pair, real>, m: Metrics, a: nat, b: nat)
    requires Drawable(|h0|, ps, pv)
    requires a <= b <= |ps|
    ensures Run(h0, ps, pv, m, b).brackets[..a] == Run(h0, ps, pv, m, a).brackets
    decreases b
  {
    if a < b {
      RunPrefix(h0, ps, pv, m, a, b - 1);
      TakeTake(Run(h0, ps, pv, m, b).brackets, a, b - 1);
    }
  }

  lemma TakeTake<T>(x: seq<T>, a: nat, b: nat)
    requires a <= b <= |x|
    ensures x[..b][..a] == x[..a]
  {
  }

  /** The bracket of the `k`-th pair is placed by one step over the running
      heights left by the first `k` pairs. */
  lemma BracketAt(h0: seq<real>, ps: seq<Pair>, pv: map<Pair, real>, m: Metrics, k: nat, count: nat)
    requires Drawable(|h0|, ps, pv)
    requires k < count <= |ps|
    ensures Run(h0, ps, pv, m, count).brackets[k]
              == BracketFor(ps[k], LineY(Run(h0, ps, pv, m, k).heights, ps[k], m), pv[ps[k]], m)
  {
    RunPrefix(h0, ps, pv, m, k + 1, count);
    assert Run(h0, ps, pv, m, count).brackets[k] == Run(h0, ps, pv, m, count).brackets[..k + 1][k];
  }

  /** One step raises every column of its span to at least the bracket's
      reserved top, changes no other column, keeps the earlier brackets
      and raises `top_y` to the new reserved top when that is higher. */
  lemma StepSpec(st: State, pr: Pair, p: real, m: Metrics)
    requires InRange(pr, |st.heights|)
    ensures var r := Step(st, pr, p, m);
            var t := NewTop(LineY(st.heights, pr, m), m);
            && (forall c :: 0 <= c < |r.heights| ==> st.heights[c] <= r.heights[c])
            && (forall c :: 0 <= c < |r.heights| && Lo(pr) <= c <= Hi(pr) ==> t <= r.heights[c])
            && (forall c :: 0 <= c < |r.heights| && !(Lo(pr) <= c <= Hi(pr)) ==> r.heights[c] == st.heights[c])
            && (forall k :: 0 <= k < |st.brackets| ==> r.brackets[k] == st.brackets[k])
            && r.brackets[|st.brackets|] == BracketFor(pr, LineY(st.heights, pr, m), p, m)
            && r.top == (if st.top < t then t else st.top)
  {
    RaiseSpec(st.heights, Lo(pr), Hi(pr), NewTop(LineY(st.heights, pr, m), m));
  }

  /** A bracket's line is one level spacing above every column it spans. */
  lemma LineAboveColumn(mh: seq<real>, pr: Pair, m: Metrics, c: int)
    requires InRange(pr, |mh|)
    requires Lo(pr) <= c <= Hi(pr)
    ensures mh[c] + LevelSpacing(m) <= LineY(mh, pr, m)
  {
    SpanMaxSpec(mh, Lo(pr), Hi(pr));
  }

  predicate Overlap(a: Pair, b: Pair) {
    Lo(a) <= Hi(b) && Lo(b) <= Hi(a)
  }

  /** The first part of the invariant of the drawing loop: every column
      is at least `floor` (the tallest bar), and every column a drawn
      bracket spans is at least that bracket's reserved top. */
  predicate Supported(st: State, floor: real, m: Metrics) {
    && (forall c :: 0 <= c < |st.heights| ==> floor <= st.heights[c])
    && (forall k, c :: 0 <= k < |st.brackets| && 0 <= c < |st.heights| && Lo(st.brackets[k].pair) <= c <= Hi(st.brackets[k].pair) ==>
          NewTop(st.brackets[k].yLine, m) <= st.heights[c])
  }

  /** The second part: a bracket that shares a column with an earlier one
      is at least one full level (symbol and two spacings) above it. */
  predicate Layered(st: State, m: Metrics) {
    forall a, b :: 0 <= a < b < |st.brackets| && Overlap(st.brackets[a].pair, st.brackets[b].pair) ==>
      NewTop(st.brackets[a].yLine, m) + LevelSpacing(m) <= st.brackets[b].yLine
  }

  /** The third part: `top_y` is 0 or the reserved top of some bracket,
      whichever is larger, and at least the reserved top of every
      bracket. */
  predicate TopIsHighest(st: State, m: Metrics) {
    && st.top >= 0.0
    && (forall k :: 0 <= k < |st.brackets| ==> NewTop(st.brackets[k].yLine, m) <= st.top)
    && (st.top == 0.0 || exists k :: 0 <= k < |st.brackets| && st.top == NewTop(st.brackets[k].yLine, m))
  }

  /** The invariant of the drawing loop. */
  predicate Stacked(st: State, floor: real, m: Metrics) {
    Supported(st, floor, m) && Layered(st, m) && TopIsHighest(st, m)
  }

  lemma StepKeepsSupported(st: State, pr: Pair, p: real, m: Metrics, floor: real)
    requires InRange(pr, |st.heights|)
    requires Supported(st, floor, m)
    ensures Supported(Step(st, pr, p, m), floor, m)
  {
    StepSpec(st, pr, p, m);
  }

  lemma StepKeepsLayered(st: State, pr: Pair, p: real, m: Metrics, floor: real)
    requires InRange(pr, |st.heights|)
    requires Supported(st, floor, m) && Layered(st, m)
    ensures Layered(Step(st, pr, p, m), m)
  {
    var r := Step(st, pr, p, m);
    var n := |st.brackets|;
    var y := LineY(st.heights, pr, m);
    StepSpec(st, pr, p, m);
    assert r.brackets[n].pair == pr && r.brackets[n].yLine == y;
    forall a | 0 <= a < n && Overlap(st.brackets[a].pair, pr)
      ensures NewTop(st.brackets[a].yLine, m) + LevelSpacing(m) <= y
    {
      var q := st.brackets[a].pair;
      var c := if Lo(q) <= Lo(pr) then Lo(pr) else Lo(q);
      LineAboveColumn(st.heights, pr, m, c);
    }
  }

  lemma StepKeepsTop(st: State, pr: Pair, p: real, m: Metrics)
    requires InRange(pr, |st.heights|)
    requires TopIsHighest(st, m)
    ensures TopIsHighest(Step(st, pr, p, m), m)
  {
    var r := Step(st, pr, p, m);
    var n := |st.brackets|;
    StepSpec(st, pr, p, m);
    if r.top != st.top {
      assert r.top == NewTop(r.brackets[n].yLine, m);
    } else if st.top != 0.0 {
      var k :| 0 <= k < n && st.top == NewTop(st.brackets[k].yLine, m);
      assert r.brackets[k] == st.brackets[k];
    }
  }

  /** One step keeps the invariant. */
  lemma StepKeepsStacked(st: State, pr: Pair, p: real, m: Metrics, floor: real)
    requires InRange(pr, |st.heights|)
    requires Stacked(st, floor, m)
    ensures Stacked(Step(st, pr, p, m), floor, m)
  {
    StepKeepsSupported(st, pr, p, m, floor);
    StepKeepsLayered(st, pr, p, m, floor);
    StepKeepsTop(st, pr, p, m);
  }

  /** The drawing loop keeps the invariant from its start on, when every
      column starts at least at `floor`. */
  lemma {:induction false} RunStacked(h0: seq<real>, ps: seq<Pair>, pv: map<Pair, real>, m: Metrics, floor: real, count: nat)
    requires Drawable(|h0|, ps, pv)
    requires count <= |ps|
    requires forall c :: 0 <= c < |h0| ==> floor <= h0[c]
    ensures Stacked(Run(h0, ps, pv, m, count), floor, m)
  {
    if count > 0 {
      RunStacked(h0, ps, pv, m, floor, count - 1);
      var prev := Run(h0, ps, pv, m, count - 1);
      assert Run(h0, ps, pv, m, count) == Step(prev, ps[count - 1], pv[ps[count - 1]], m);
      StepKeepsStacked(prev, ps[count - 1], pv[ps[count - 1]], m, floor);
    }
  }

  // ---------------------------------------------------------------------
  // What this says about `significance_annotation`

  /** The chart's brackets: one per key, in span order; the first sits one
      level spacing above the tallest bar of the whole chart (every column
      starts there), tips drop half an asterisk height, a "-" is a dash one
      asterisk height above the line and stars are placed half an asterisk
      height below it. */
  lemma AnnotationShape(heights: seq<real>, keys: seq<Pair>, pv: map<Pair, real>, m: Metrics)
    requires |heights| > 0
    requires Drawable(|heights|, keys, pv)
    ensures Drawable(|heights|, SortBySpan(keys), pv)
    ensures var an := Annotated(heights, keys, pv, m);
            var sorted := SortBySpan(keys);
            && |an.brackets| == |keys|
            && (forall k :: 0 <= k < |an.brackets| ==>
                  && an.brackets[k].pair == sorted[k]
                  && an.brackets[k].tipBottom == an.brackets[k].yLine - m.height / 2.0
                  && (an.brackets[k].mark.Dash? <==> Significance.Symbol(pv[sorted[k]]) == "-")
                  && (an.brackets[k].mark.Dash? ==> an.brackets[k].mark.y == an.brackets[k].yLine + m.height)
                  && (an.brackets[k].mark.Stars? ==>
                        an.brackets[k].mark.y == an.brackets[k].yLine - m.height / 2.0
                        && an.brackets[k].mark.symbol == Significance.Symbol(pv[sorted[k]])))
            && (|keys| > 0 ==> an.brackets[0].yLine == MaxOf(heights) + LevelSpacing(m))
  {
    var sorted := SortBySpan(keys);
    SortedDrawable(|heights|, keys, pv);
    var h0 := Initial(heights);
    forall k | 0 <= k < |sorted|
      ensures var b := Run(h0, sorted, pv, m, |sorted|).brackets[k];
              b == BracketFor(sorted[k], b.yLine, pv[sorted[k]], m)
    {
      BracketAt(h0, sorted, pv, m, k, |sorted|);
    }
    if |keys| > 0 {
      BracketAt(h0, sorted, pv, m, 0, |sorted|);
      SpanMaxConst(h0, Lo(sorted[0]), Hi(sorted[0]), MaxOf(heights));
    }
  }

  lemma SpanMaxConst(mh: seq<real>, lo: int, hi: int, v: real)
    requires 0 <= lo <= hi < |mh|
    requires forall k :: 0 <= k < |mh| ==> mh[k] == v
    ensures SpanMax(mh, lo, hi) == v
    decreases hi - lo
  {
    if lo < hi {
      SpanMaxConst(mh, lo + 1, hi, v);
    }
  }

  /** The brackets stack: pairs come in span order; a bracket that shares
      a bar with an earlier one is drawn at least one full level above it,
      so strictly higher when the asterisk height is positive; every
      column a bracket spans ends above its reserved top and no column ends
      below the tallest bar; the y-axis top is at least the reserved top of
      every bracket, and 0 when there are no pairs. */
  lemma AnnotationStacks(heights: seq<real>, keys: seq<Pair>, pv: map<Pair, real>, m: Metrics)
    requires |heights| > 0
    requires Drawable(|heights|, keys, pv)
    ensures var an := Annotated(heights, keys, pv, m);
            && (forall a, b :: 0 <= a < b < |an.brackets| ==> Span(an.brackets[a].pair) <= Span(an.brackets[b].pair))
            && (forall a, b :: 0 <= a < b < |an.brackets| && Overlap(an.brackets[a].pair, an.brackets[b].pair) ==>
                  an.brackets[a].yLine + m.height + 2.0 * LevelSpacing(m) <= an.brackets[b].yLine)
            && (m.height > 0.0 ==>
                  forall a, b :: 0 <= a < b < |an.brackets| && Overlap(an.brackets[a].pair, an.brackets[b].pair) ==>
                    an.brackets[a].yLine < an.brackets[b].yLine)
            && an.yTop >= 0.0
            && (forall k :: 0 <= k < |an.brackets| ==> an.yTop >= NewTop(an.brackets[k].yLine, m))
            && (an.yTop == 0.0 || exists k :: 0 <= k < |an.brackets| && an.yTop == NewTop(an.brackets[k].yLine, m))
            && (keys == [] ==> an.yTop == 0.0)
            && |an.columns| == |heights|
            && (forall c :: 0 <= c < |an.columns| ==> MaxOf(heights) <= an.columns[c])
            && (forall k, c :: 0 <= k < |an.brackets| && 0 <= c < |an.columns| && Lo(an.brackets[k].pair) <= c <= Hi(an.brackets[k].pair) ==>
                  NewTop(an.brackets[k].yLine, m) <= an.columns[c])
  {
    var sorted := SortBySpan(keys);
    SortedDrawable(|heights|, keys, pv);
    var h0 := Initial(heights);
    RunStacked(h0, sorted, pv, m, MaxOf(heights), |sorted|);
    AnnotationShape(heights, keys, pv, m);
  }

  /** Of two overlapping pairs with different spans, the wider one's
      bracket is drawn above the narrower one's (for instance the bracket
      over bars 0 and 2 above the one over bars 0 and 1), whatever the
      order of the keys. */
  lemma WiderSpanAbove(heights: seq<real>, keys: seq<Pair>, pv: map<Pair, real>, m: Metrics, a: nat, b: nat)
    requires |heights| > 0
    requires Drawable(|heights|, keys, pv)
    requires m.height > 0.0
    requires a < |keys| && b < |keys|
    requires Overlap(SortBySpan(keys)[a], SortBySpan(keys)[b])
    requires Span(SortBySpan(keys)[a]) < Span(SortBySpan(keys)[b])
    ensures Annotated(heights, keys, pv, m).brackets[a].yLine < Annotated(heights, keys, pv, m).brackets[b].yLine
  {
    NarrowerFirst(SortBySpan(keys), a, b);
    AnnotationShape(heights, keys, pv, m);
    AnnotationStacks(heights, keys, pv, m);
  }
}
