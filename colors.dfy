/** The bar colour tables of mplib/bar_w_stats.py and stats_visualization.py
    and their lookup with a grey fallback (`dict.get(name, DEFAULT_COLOR)`). */
module Colors {

  /** The fallback grey of both scripts. */
  const Default: string := "#808080"

  /** `attribute_COLORS` of mplib/bar_w_stats.py. */
  const AttributeColors: map<string, string> :=
    map["A" := "red", "B" := "green", "C" := "blue", "D" := "magenta"]

  /** `GENOTYPE_COLORS` of stats_visualization.py, grouped by shade. */
  const GenotypeColors: map<string, string> :=
    map["S6wt/flox" := "#7f7f7f", "S6wt/flox + siRNA" := "#7f7f7f", "S6wt/flox + Myc" := "#7f7f7f",
        "S6flox/flox" := "#F4EDD3", "DTHB" := "#F4EDD3", "EGI" := "#F4EDD3",
        "iS6wt/del" := "#c55a11", "S6wt/del" := "#c55a11", "iS6wt/del + siRNA" := "#c55a11",
        "iS6wt/del + Myc" := "#c55a11", "S6wt/flox + CRE" := "#c55a11",
        "ip53del/del" := "#e41908", "ip53del/del + Myc" := "#e41908", "p53flox/flox + CRE" := "#e41908",
        "iS6wt/del:p53del/del" := "#840c18", "iS6wt/del:p53del/del + Myc" := "#840c18",
        "S6wt/flox:p53flox/flox + CRE" := "#840c18", "Non" := "#840c18", "EG" := "#840c18",
        "iS6del/del" := "#8babf1", "iS6del/del + siRNA" := "#8babf1", "S6flox/flox + CRE" := "#8babf1",
        "cp53del/del" := "#f0e442",
        "cS6wt/del:p53del/del" := "#e69f00", "S6wt/del:p53del/del" := "#e69f00"]

  /** The eight shades the genotype table uses. */
  const GenotypeShades: set<string> :=
    {"#7f7f7f", "#F4EDD3", "#c55a11", "#e41908", "#840c18", "#8babf1", "#f0e442", "#e69f00"}

  /** `table.get(name, DEFAULT_COLOR)`. */
  function ColorFor(table: map<string, string>, name: string): (c: string)
    ensures c in table.Values || c == Default
  {
    if name in table then table[name] else Default
  }

  /** A table that never maps a name to the fallback grey. */
  predicate AvoidsDefault(table: map<string, string>) {
    forall k :: k in table ==> table[k] != Default
  }

  /** For such a table the colour alone tells whether a name is listed: the
      grey is returned exactly for unlisted names. */
  lemma FallbackIff(table: map<string, string>, name: string)
    requires AvoidsDefault(table)
    ensures ColorFor(table, name) == Default <==> name !in table
    ensures name in table ==> ColorFor(table, name) == table[name]
  {
  }

  /** `get_color_for_attribute`: only "A" to "D" have a colour of their own;
      every other attribute is drawn grey. */
  lemma AttributeColorSpec(name: string)
    ensures ColorFor(AttributeColors, name) == Default <==> name !in {"A", "B", "C", "D"}
    ensures ColorFor(AttributeColors, "A") == "red" && ColorFor(AttributeColors, "D") == "magenta"
  {
    FallbackIff(AttributeColors, name);
  }

  /** `get_color_for_genotype`: a listed genotype gets one of the eight
      shades, an unlisted one the fallback grey, which is none of them. */
  lemma GenotypeColorSpec(name: string)
    ensures name in GenotypeColors ==> ColorFor(GenotypeColors, name) in GenotypeShades
    ensures ColorFor(GenotypeColors, name) == Default <==> name !in GenotypeColors
    ensures ColorFor(GenotypeColors, "S6wt/flox + CRE") == ColorFor(GenotypeColors, "iS6wt/del")
  {
    assert AvoidsDefault(GenotypeColors) by {
      forall k | k in GenotypeColors ensures GenotypeColors[k] in GenotypeShades {
      }
    }
    FallbackIff(GenotypeColors, name);
  }
}
