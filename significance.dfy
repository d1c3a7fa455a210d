/** The five-level significance scale and the Bonferroni adjustment shared
    by every statistics path of the repository. The symbol function is
    written out identically in four files (demos/signifi_single_group.py,
    demos/signif_single_group.py, mplib/bar_w_stats.py and
    stats_visualization.py); it is modelled once here. */
module Significance {

  /** `get_significance_symbol`: the first threshold that `p` does not
      exceed decides the symbol; a p-value exactly at a threshold gets the
      stricter symbol. */
  function Symbol(p: real): string {
    if p <= 0.0001 then "****"
    else if p <= 0.001 then "***"
    else if p <= 0.01 then "**"
    else if p <= 0.05 then "*"
    else "-"
  }

  /** All five symbols, from the most to the least significant. */
  const Symbols: seq<string> := ["****", "***", "**", "*", "-"]

  /** The threshold table read both ways: each symbol is produced exactly on
      its own half-open band of p-values. */
  lemma SymbolBands(p: real)
    ensures Symbol(p) == "****" <==> p <= 0.0001
    ensures Symbol(p) == "***" <==> 0.0001 < p <= 0.001
    ensures Symbol(p) == "**" <==> 0.001 < p <= 0.01
    ensures Symbol(p) == "*" <==> 0.01 < p <= 0.05
    ensures Symbol(p) == "-" <==> 0.05 < p
  {
  }

  /** The number of stars never grows as the p-value grows: a smaller p is
      at least as significant. */
  function Stars(sym: string): nat {
    if sym == "-" then 0 else |sym|
  }

  lemma SymbolMonotone(p: real, q: real)
    requires p <= q
    ensures Stars(Symbol(q)) <= Stars(Symbol(p))
    ensures Symbol(p) in Symbols && Symbol(q) in Symbols
  {
  }

  /** Only "-" marks a comparison as not significant, and that happens
      exactly above 0.05. */
  lemma NotSignificantIff(p: real)
    ensures Stars(Symbol(p)) == 0 <==> p > 0.05
    ensures Stars(Symbol(p)) <= 4
  {
  }

  /** Bonferroni correction `min(p * n_tests, 1.0)`. */
  function Adjust(p: real, nTests: nat): (r: real)
    ensures r <= 1.0
    ensures r == 1.0 || r == p * nTests as real
    ensures p * nTests as real < 1.0 ==> r == p * nTests as real
    ensures p * nTests as real >= 1.0 ==> r == 1.0
  {
    if p * nTests as real < 1.0 then p * nTests as real else 1.0
  }

  /** For a p-value in [0, 1] and at least one test, the adjusted value lies
      between the raw value and 1. */
  lemma AdjustBounds(p: real, nTests: nat)
    requires 0.0 <= p <= 1.0
    requires nTests >= 1
    ensures p <= Adjust(p, nTests) <= 1.0
  {
    assert p * nTests as real >= p * 1.0;
  }

  /** A larger family of tests never makes a result more significant. */
  lemma AdjustMonotone(p: real, m: nat, n: nat)
    requires 0.0 <= p
    requires m <= n
    ensures Adjust(p, m) <= Adjust(p, n)
    ensures Stars(Symbol(Adjust(p, n))) <= Stars(Symbol(Adjust(p, m)))
  {
    ScaleMonotone(p, m as real, n as real);
    var a, b := Adjust(p, m), Adjust(p, n);
    var pm, pn := p * m as real, p * n as real;
    assert pm <= pn;
    assert a <= b by {
      if pn < 1.0 {
        assert pm < 1.0;
        assert b == pn && a == pm;
      } else {
        assert b == 1.0 && a <= 1.0;
      }
    }
    SymbolMonotone(a, b);
  }

  lemma ScaleMonotone(p: real, a: real, b: real)
    requires 0.0 <= p && a <= b
    ensures p * a <= p * b
  {
    assert p * b - p * a == p * (b - a);
  }
}
