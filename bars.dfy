/** Bar placement shared by both grouped bar plots: `bar_width = 0.8 / n`
    for `n` bars per group, groups at `np.arange(n_groups)`, and the bar of
    index `i` of group position `g` at `g + (i - n / 2 + 0.5) * bar_width`. */
module BarPositions {
  import opened Wrappers

  /** `0.8 / n`; Python raises ZeroDivisionError when there is no bar. */
  function BarWidth(n: nat): (w: Option<real>)
    ensures w.None? <==> n == 0
    ensures w.Some? ==> w.value * n as real == 0.8
  {
    if n == 0 then None else Some(0.8 / n as real)
  }

  /** The centre of bar `i` of `n` in the group at position `g`. */
  function BarX(g: real, i: int, n: nat, width: real): real {
    g + (i as real - n as real / 2.0 + 0.5) * width
  }

  /** Neighbouring bars are one bar width apart, bars `i` and `n - 1 - i`
      lie symmetrically about the group position, and with the computed
      width every bar centre lies strictly within 0.4 of it, so neighbouring
      groups never share a bar slot. */
  lemma BarXSpec(g: real, i: nat, n: nat)
    requires i < n
    ensures var w := BarWidth(n).value;
            && BarX(g, i + 1, n, w) - BarX(g, i, n, w) == w
            && BarX(g, i, n, w) + BarX(g, n - 1 - i, n, w) == 2.0 * g
            && g - 0.4 < BarX(g, i, n, w) < g + 0.4
            && BarX(g, i, n, w) < BarX(g + 1.0, 0, n, w)
  {
    var w := BarWidth(n).value;
    var d := i as real - n as real / 2.0 + 0.5;
    assert BarX(g, i, n, w) == g + d * w;
    assert BarX(g, i + 1, n, w) == g + (d + 1.0) * w;
    assert BarX(g, n - 1 - i, n, w) == g - d * w;
    BarOffsetBound(i, n);
    assert d * w == (i as real + 0.5) * w - 0.4;
    assert 0.0 < (i as real + 0.5) * w < 0.8 by {
      assert (i as real + 0.5) * w < n as real * w;
    }
  }

  lemma BarOffsetBound(i: nat, n: nat)
    requires i < n
    ensures var w := BarWidth(n).value;
            w > 0.0 && (n as real / 2.0) * w == 0.4
  {
  }

  lemma MulSucc(a: nat, n: nat)
    ensures (a + 1) * n == a * n + n
  {
  }

  /** Row-major layout arithmetic: the slot `k * n + c` of row `k < m`
      lies inside the first `m` rows of `n` slots. */
  lemma {:induction false} RowBlock(k: nat, m: nat, n: nat, c: nat)
    requires k < m && c < n
    ensures k * n + c < m * n
    decreases m
  {
    MulSucc(m - 1, n);
    if m > k + 1 {
      RowBlock(k, m - 1, n, c);
    }
  }
}
