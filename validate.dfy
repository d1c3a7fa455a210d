/** mplib/validate.py: the panel ids a mosaic layout uses, and the check of
    a plot specification against the sheet names of a workbook. */
module Validate {
  import opened PyStr
  import opened Lex
  import opened Subseq
  import opened Config

  /** Every non-whitespace character of the rows, in order, each as a
      one-character string (iterating a `str` yields such strings). */
  function PanelChars(rows: seq<string>): (r: seq<string>)
  {
    if rows == [] then [] else PanelChars(rows[..|rows| - 1]) + RowChars(rows[|rows| - 1])
  }

  function RowChars(row: string): seq<string> {
    if row == [] then []
    else RowChars(row[..|row| - 1]) + (if IsSpace(row[|row| - 1]) then [] else [[row[|row| - 1]]])
  }

  /** The value `_panels_in_layout` returns. */
  function LayoutPanels(rows: seq<string>): set<string> {
    set p | p in PanelChars(rows)
  }

  /** `_panels_in_layout`: a set filled row by row, character by character. */
  method PanelsInLayout(rows: seq<string>) returns (panels: set<string>)
    ensures panels == LayoutPanels(rows)
  {
    panels := {};
    for i := 0 to |rows|
      invariant panels == set p | p in PanelChars(rows[..i])
    {
      assert rows[..i + 1][..i] == rows[..i];
      var row := rows[i];
      ghost var before := panels;
      for j := 0 to |row|
        invariant panels == before + set p | p in RowChars(row[..j])
      {
        assert row[..j + 1][..j] == row[..j];
        if !IsSpace(row[j]) {
          panels := panels + {[row[j]]};
        }
      }
      assert row[..|row|] == row;
    }
    assert rows[..|rows|] == rows;
  }

  lemma {:induction false} RowCharsSpec(row: string)
    ensures forall p :: p in RowChars(row) <==> exists k :: 0 <= k < |row| && !IsSpace(row[k]) && p == [row[k]]
  {
    if row != [] {
      var init := row[..|row| - 1];
      RowCharsSpec(init);
      assert forall k :: 0 <= k < |init| ==> init[k] == row[k];
    }
  }

  /** The layout panels are exactly the non-whitespace characters found
      in some row. */
  lemma {:induction false} LayoutPanelsSpec(rows: seq<string>)
    ensures forall p :: p in LayoutPanels(rows) <==>
              exists i, k :: 0 <= i < |rows| && 0 <= k < |rows[i]| && !IsSpace(rows[i][k]) && p == [rows[i][k]]
  {
    if rows != [] {
      var init := rows[..|rows| - 1];
      LayoutPanelsSpec(init);
      RowCharsSpec(rows[|rows| - 1]);
      assert forall i :: 0 <= i < |init| ==> init[i] == rows[i];
      forall p | p in LayoutPanels(rows)
        ensures exists i, k :: 0 <= i < |rows| && 0 <= k < |rows[i]| && !IsSpace(rows[i][k]) && p == [rows[i][k]]
      {
        if p in PanelChars(init) {
          assert p in LayoutPanels(init);
        }
      }
      forall p, i, k | 0 <= i < |rows| && 0 <= k < |rows[i]| && !IsSpace(rows[i][k]) && p == [rows[i][k]]
        ensures p in LayoutPanels(rows)
      {
        if i < |rows| - 1 {
          assert p in LayoutPanels(init);
        }
      }
    }
  }

  /** The elements of `xs` outside `s`, in order. */
  function Outside(xs: seq<string>, s: set<string>): (r: seq<string>)
    ensures Subsequence(r, xs)
    ensures forall x :: x in r <==> x in xs && x !in s
  {
    Filter(x => x !in s, xs)
  }

  /** The result of `validate_spec_against_xlsx`: one of its two
      ValueErrors, with the list it reports, or a normal return with the
      ids of the placeholder panels it warns about (no warning when empty). */
  datatype Outcome =
    | MissingSheets(keys: seq<string>)
    | UnknownPanels(ids: seq<string>)
    | Valid(unmapped: seq<string>)

  function ValidateSpec(spec: PlotSpec, sheetNames: set<string>): Outcome {
    var missing := Outside(DictKeys(spec.sheet2panel), sheetNames);
    if missing != [] then MissingSheets(missing)
    else
      var layout := LayoutPanels(spec.layoutRows);
      var mapped := DictValues(spec.sheet2panel);
      var unknown := SortedSet(Outside(mapped, layout));
      if unknown != [] then UnknownPanels(unknown)
      else Valid(SortedSet(Outside(PanelChars(spec.layoutRows), (set p | p in mapped) + {"0"})))
  }

  /** The sheet check comes first: the missing-sheet error is raised exactly
      when some mapping key is not a sheet, whatever the layout, and lists
      those keys in mapping order. */
  lemma MissingSheetsSpec(spec: PlotSpec, sheetNames: set<string>)
    ensures ValidateSpec(spec, sheetNames).MissingSheets? <==>
              exists k :: 0 <= k < |spec.sheet2panel| && spec.sheet2panel[k].0 !in sheetNames
    ensures ValidateSpec(spec, sheetNames).MissingSheets? ==>
              var ks := ValidateSpec(spec, sheetNames).keys;
              && Subsequence(ks, DictKeys(spec.sheet2panel))
              && forall x :: x in ks <==> x in DictKeys(spec.sheet2panel) && x !in sheetNames
  {
    var keys := DictKeys(spec.sheet2panel);
    var missing := Outside(keys, sheetNames);
    if missing != [] {
      assert missing[0] in missing;
    } else {
      forall k | 0 <= k < |spec.sheet2panel| ensures spec.sheet2panel[k].0 in sheetNames {
        assert keys[k] in keys;
      }
    }
  }

  /** With every sheet present, the unknown-panel error is raised exactly
      when some mapping value is not a panel of the layout, and it lists
      those ids sorted, each once. */
  lemma UnknownPanelsSpec(spec: PlotSpec, sheetNames: set<string>)
    requires forall k :: 0 <= k < |spec.sheet2panel| ==> spec.sheet2panel[k].0 in sheetNames
    ensures ValidateSpec(spec, sheetNames).UnknownPanels? <==>
              exists k :: 0 <= k < |spec.sheet2panel| && spec.sheet2panel[k].1 !in LayoutPanels(spec.layoutRows)
    ensures ValidateSpec(spec, sheetNames).UnknownPanels? ==>
              var ids := ValidateSpec(spec, sheetNames).ids;
              && StrictlySorted(ids)
              && forall x :: x in ids <==> x in DictValues(spec.sheet2panel) && x !in LayoutPanels(spec.layoutRows)
  {
    MissingSheetsSpec(spec, sheetNames);
    var mapped := DictValues(spec.sheet2panel);
    var layout := LayoutPanels(spec.layoutRows);
    var unknown := SortedSet(Outside(mapped, layout));
    if unknown != [] {
      assert unknown[0] in unknown;
    } else {
      forall k | 0 <= k < |spec.sheet2panel| ensures spec.sheet2panel[k].1 in layout {
        assert mapped[k] in mapped;
      }
    }
  }

  /** The check returns normally exactly when every key is a sheet and every
      value a layout panel (a value "0" included, when "0" is in the
      layout); the warning then lists, sorted and each once, the layout
      panels no sheet maps to, never "0". */
  lemma ValidSpec(spec: PlotSpec, sheetNames: set<string>)
    ensures ValidateSpec(spec, sheetNames).Valid? <==>
              && (forall k :: 0 <= k < |spec.sheet2panel| ==> spec.sheet2panel[k].0 in sheetNames)
              && (forall k :: 0 <= k < |spec.sheet2panel| ==> spec.sheet2panel[k].1 in LayoutPanels(spec.layoutRows))
    ensures ValidateSpec(spec, sheetNames).Valid? ==>
              var w := ValidateSpec(spec, sheetNames).unmapped;
              && StrictlySorted(w) && "0" !in w
              && forall x :: x in w <==> x in LayoutPanels(spec.layoutRows) && x !in DictValues(spec.sheet2panel) && x != "0"
  {
    MissingSheetsSpec(spec, sheetNames);
    if forall k :: 0 <= k < |spec.sheet2panel| ==> spec.sheet2panel[k].0 in sheetNames {
      UnknownPanelsSpec(spec, sheetNames);
    }
  }
}
