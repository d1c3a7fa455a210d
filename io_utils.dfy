/** mplib/io_utils.py: normalising the `layout` value of a plot
    specification and the checks `load_plot_spec` makes of the parsed YAML
    document. Reading the file and parsing the YAML are not modelled: the
    existence of the path and the parsed document are inputs. */
module IoUtils {
  import opened Wrappers
  import opened PyStr
  import opened Subseq
  import opened Config

  /** A scalar of the parsed document: a string, or any other value
      together with what `str()` makes of it. */
  datatype Scalar = Str(s: string) | NonStr(shown: string)

  /** `str(x)`. */
  function Show(x: Scalar): string {
    match x
    case Str(s) => s
    case NonStr(shown) => shown
  }

  /** A value under a top-level key: a scalar, a list or a mapping (its
      items in document order). */
  datatype Node =
    | Leaf(v: Scalar)
    | List(items: seq<Scalar>)
    | Mapping(entries: seq<(Scalar, Scalar)>)

  /** The exceptions `load_plot_spec` raises, in the order it checks. */
  datatype SpecError =
    | PathMissing          // Exception: the path does not exist
    | NoData               // Exception: the document is empty
    | MissingSheet2Panel   // ValueError
    | MissingLayout        // ValueError
    | NotAMapping          // ValueError: sheet2panel is not a mapping
    | LayoutNotIterable    // TypeError: a layout that is neither a string nor a collection

  // ---------------------------------------------------------------------
  // _normalize_layout

  /** `[row.strip() for row in rows]`. */
  function StripAll(rows: seq<string>): (r: seq<string>)
    ensures |r| == |rows|
  {
    if rows == [] then [] else [Strip(rows[0])] + StripAll(rows[1..])
  }

  /** Both comprehensions of `_normalize_layout`: each row stripped, and
      kept when the stripped row is not empty. */
  function NormalizeRows(rows: seq<string>): (r: seq<string>)
    ensures |r| <= |rows|
  {
    if rows == [] then []
    else (if Strip(rows[0]) != [] then [Strip(rows[0])] else []) + NormalizeRows(rows[1..])
  }

  function Shows(xs: seq<Scalar>): (r: seq<string>)
    ensures |r| == |xs|
    ensures forall k :: 0 <= k < |xs| ==> r[k] == Show(xs[k])
  {
    if xs == [] then [] else [Show(xs[0])] + Shows(xs[1..])
  }

  /** `_normalize_layout`: a string is cut into lines; any other collection
      is iterated (a mapping yields its keys) and each element passed
      through `str()`; a scalar that is not a string cannot be iterated. */
  function NormalizeLayout(v: Node): Result<seq<string>, SpecError> {
    match v
    case Leaf(Str(s)) => Ok(NormalizeRows(SplitLines(s)))
    case Leaf(NonStr(_)) => Err(LayoutNotIterable)
    case List(items) => Ok(NormalizeRows(Shows(items)))
    case Mapping(entries) => Ok(NormalizeRows(Shows(DictKeys(entries))))
  }

  /** A row as `_normalize_layout` returns it: not empty, and no whitespace
      at either end. */
  predicate NormalRow(r: string) {
    r != [] && Trimmed(r)
  }

  /** The filter of the second comprehension: `row.strip() != ""`. */
  predicate Kept(row: string) {
    Strip(row) != []
  }

  /** Every kept row is non-empty and stripped, the rows are the stripped
      input rows in their input order, and a row is dropped only when it
      is blank: the one pass equals the two comprehensions, the strip and
      then the filter, so repeated rows are all kept. */
  lemma {:induction false} NormalizeRowsSpec(rows: seq<string>)
    ensures NormalizeRows(rows) == Filter(Kept, StripAll(rows))
    ensures forall r :: r in NormalizeRows(rows) ==> NormalRow(r)
    ensures Subsequence(NormalizeRows(rows), StripAll(rows))
    ensures forall k :: 0 <= k < |rows| && Strip(rows[k]) != [] ==> Strip(rows[k]) in NormalizeRows(rows)
  {
    NormalizeTwoPasses(rows);
    if rows != [] {
      NormalizeRowsSpec(rows[1..]);
      StripSpec(rows[0]);
      var t := NormalizeRows(rows[1..]);
      var st := StripAll(rows);
      assert st[1..] == StripAll(rows[1..]);
      if Strip(rows[0]) != [] {
        assert ([Strip(rows[0])] + t)[1..] == t;
      } else {
        assert NormalizeRows(rows) == t;
        SubsequenceSkip(t, st);
      }
      forall k | 1 <= k < |rows| && Strip(rows[k]) != [] ensures Strip(rows[k]) in NormalizeRows(rows) {
        assert rows[1..][k - 1] == rows[k];
      }
    }
  }

  lemma {:induction false} NormalizeTwoPasses(rows: seq<string>)
    ensures NormalizeRows(rows) == Filter(Kept, StripAll(rows))
  {
    if rows != [] {
      NormalizeTwoPasses(rows[1..]);
      StripIdempotent(rows[0]);
      var st := StripAll(rows);
      assert st[1..] == StripAll(rows[1..]);
      assert st[0] == Strip(rows[0]);
    }
  }

  /** Normalising normalised rows changes nothing. */
  lemma {:induction false} NormalizeNormal(rows: seq<string>)
    requires forall r :: r in rows ==> NormalRow(r)
    ensures NormalizeRows(rows) == rows
  {
    if rows != [] {
      assert rows[0] in rows;
      StripTrimmed(rows[0]);
      assert forall r :: r in rows[1..] ==> r in rows;
      NormalizeNormal(rows[1..]);
      assert rows == [rows[0]] + rows[1..];
    }
  }

  /** So normalising is idempotent. */
  lemma NormalizeIdempotent(rows: seq<string>)
    ensures NormalizeRows(NormalizeRows(rows)) == NormalizeRows(rows)
  {
    NormalizeRowsSpec(rows);
    NormalizeNormal(NormalizeRows(rows));
  }

  /** `strip()` cuts only at the ends, so it adds no line boundary. */
  lemma StripNoBreak(s: string)
    requires NoLineBreak(s)
    ensures NoLineBreak(Strip(s))
  {
    var l := TrimLeft(s);
    var r := TrimRight(l);
    TrimLeftSpec(s);
    TrimRightSpec(l);
    forall k | 0 <= k < |r| ensures !IsLineBreak(r[k]) {
      assert r[k] == l[k];
      assert l[k] == s[|s| - |l| + k];
    }
  }

  lemma {:induction false} NormalizeNoBreak(lines: seq<string>)
    requires forall k :: 0 <= k < |lines| ==> NoLineBreak(lines[k])
    ensures forall r :: r in NormalizeRows(lines) ==> NoLineBreak(r)
  {
    if lines != [] {
      StripNoBreak(lines[0]);
      NormalizeNoBreak(lines[1..]);
      assert forall k :: 1 <= k < |lines| ==> lines[1..][k - 1] == lines[k];
    }
  }

  /** The rows of a block string hold no line boundary. */
  lemma BlockLayoutSpec(s: string)
    ensures NormalizeLayout(Leaf(Str(s))).Ok?
    ensures forall r :: r in NormalizeLayout(Leaf(Str(s))).value ==> NoLineBreak(r)
  {
    var lines := SplitLines(s);
    SplitLinesNoBreak(s);
    assert forall k :: 0 <= k < |lines| ==> lines[k] in lines;
    NormalizeNoBreak(lines);
  }

  /** Normalised rows without line boundaries, joined by "\n" as a block
      string or given as a list of strings, come back unchanged: the two
      spellings of a layout agree. */
  lemma BlockRoundTrip(rows: seq<string>)
    requires forall r :: r in rows ==> NormalRow(r) && NoLineBreak(r)
    ensures NormalizeLayout(Leaf(Str(Join("\n", rows)))) == Ok(rows)
    ensures NormalizeLayout(List(StrItems(rows))) == Ok(rows)
  {
    assert forall k :: 0 <= k < |rows| ==> rows[k] in rows;
    SplitLinesJoin(rows);
    NormalizeNormal(rows);
    ShowsStrItems(rows);
  }

  /** The list `rows` as the YAML parser returns it. */
  function StrItems(rows: seq<string>): seq<Scalar> {
    if rows == [] then [] else [Str(rows[0])] + StrItems(rows[1..])
  }

  lemma {:induction false} ShowsStrItems(rows: seq<string>)
    ensures Shows(StrItems(rows)) == rows
  {
    if rows != [] {
      ShowsStrItems(rows[1..]);
      assert rows == [rows[0]] + rows[1..];
    }
  }

  // ---------------------------------------------------------------------
  // load_plot_spec

  /** `{str(k): str(v) for k, v in entries}`: a later entry whose key
      prints the same replaces the earlier value in place. */
  function StringDict(entries: seq<(Scalar, Scalar)>): Dict {
    if entries == [] then []
    else
      var last := entries[|entries| - 1];
      Put(StringDict(entries[..|entries| - 1]), Show(last.0), Show(last.1))
  }

  /** The keys are distinct. */
  lemma {:induction false} StringDictDistinct(entries: seq<(Scalar, Scalar)>)
    ensures DistinctKeys(StringDict(entries))
  {
    if entries != [] {
      var n := |entries| - 1;
      StringDictDistinct(entries[..n]);
      PutDistinct(StringDict(entries[..n]), Show(entries[n].0), Show(entries[n].1));
    }
  }

  /** The keys are the printed keys of the entries. */
  lemma {:induction false} StringDictKeys(entries: seq<(Scalar, Scalar)>)
    ensures forall x :: x in DictKeys(StringDict(entries)) <==> exists i :: 0 <= i < |entries| && Show(entries[i].0) == x
  {
    if entries != [] {
      var n := |entries| - 1;
      var init := entries[..n];
      var d := StringDict(init);
      var k := Show(entries[n].0);
      StringDictKeys(init);
      PutKeys(d, k, Show(entries[n].1));
      forall x ensures x in DictKeys(StringDict(entries)) <==> exists i :: 0 <= i < |entries| && Show(entries[i].0) == x {
        assert x in DictKeys(StringDict(entries)) <==> x in DictKeys(d) || x == k;
        if x in DictKeys(d) {
          var i :| 0 <= i < n && Show(init[i].0) == x;
          assert entries[i] == init[i];
        }
        if exists i :: 0 <= i < |entries| && Show(entries[i].0) == x {
          var i :| 0 <= i < |entries| && Show(entries[i].0) == x;
          if i < n {
            assert init[i] == entries[i];
          }
        }
      }
    }
  }

  /** Each printed key maps to the printed value of the last entry with
      that printed key. */
  lemma {:induction false} StringDictValues(entries: seq<(Scalar, Scalar)>, i: nat)
    requires i < |entries|
    requires forall j :: i < j < |entries| ==> Show(entries[j].0) != Show(entries[i].0)
    ensures Get(StringDict(entries), Show(entries[i].0)) == Some(Show(entries[i].1))
  {
    var n := |entries| - 1;
    var init := entries[..n];
    var d := StringDict(init);
    var x := Show(entries[i].0);
    var k := Show(entries[n].0);
    assert StringDict(entries) == Put(d, k, Show(entries[n].1));
    PutGet(d, k, Show(entries[n].1), x);
    if i < n {
      assert x != k;
      assert init[i] == entries[i];
      assert forall j :: i < j < |init| ==> Show(init[j].0) != Show(init[i].0);
      StringDictValues(init, i);
      assert Get(d, x) == Some(Show(entries[i].1));
    } else {
      assert x == k;
    }
  }

  /** `load_plot_spec` after the file is read. `pathExists` is
      `path.exists()`; `data` is the parsed document, `None` for an empty
      one. */
  function LoadPlotSpec(pathExists: bool, data: Option<map<string, Node>>): Result<PlotSpec, SpecError> {
    if !pathExists then Err(PathMissing)
    else if data.None? then Err(NoData)
    else if "sheet2panel" !in data.value then Err(MissingSheet2Panel)
    else if "layout" !in data.value then Err(MissingLayout)
    else if !data.value["sheet2panel"].Mapping? then Err(NotAMapping)
    else
      match NormalizeLayout(data.value["layout"])
      case Err(e) => Err(e)
      case Ok(rows) => Ok(PlotSpec(StringDict(data.value["sheet2panel"].entries), rows))
  }

  /** The checks fail in order: a missing path, then an empty document, a
      missing `sheet2panel`, a missing `layout`, a `sheet2panel` that is not
      a mapping, and a layout that cannot be iterated; a spec is returned
      exactly when all pass, with the printed mapping and the normalised
      layout. */
  lemma LoadPlotSpecSpec(pathExists: bool, data: Option<map<string, Node>>)
    ensures LoadPlotSpec(pathExists, data) == Err(PathMissing) <==> !pathExists
    ensures LoadPlotSpec(pathExists, data) == Err(NoData) <==> pathExists && data.None?
    ensures LoadPlotSpec(pathExists, data) == Err(MissingSheet2Panel) <==>
              pathExists && data.Some? && "sheet2panel" !in data.value
    ensures LoadPlotSpec(pathExists, data) == Err(MissingLayout) <==>
              pathExists && data.Some? && "sheet2panel" in data.value && "layout" !in data.value
    ensures LoadPlotSpec(pathExists, data) == Err(NotAMapping) <==>
              pathExists && data.Some? && "sheet2panel" in data.value && "layout" in data.value
              && !data.value["sheet2panel"].Mapping?
    ensures LoadPlotSpec(pathExists, data).Ok? <==>
              pathExists && data.Some? && "sheet2panel" in data.value && "layout" in data.value
              && data.value["sheet2panel"].Mapping? && !(data.value["layout"].Leaf? && data.value["layout"].v.NonStr?)
    ensures LoadPlotSpec(pathExists, data).Ok? ==>
              var spec := LoadPlotSpec(pathExists, data).value;
              && DistinctKeys(spec.sheet2panel)
              && (forall x :: x in DictKeys(spec.sheet2panel) <==>
                    exists i :: 0 <= i < |data.value["sheet2panel"].entries| && Show(data.value["sheet2panel"].entries[i].0) == x)
              && NormalizeLayout(data.value["layout"]) == Ok(spec.layoutRows)
              && forall r :: r in spec.layoutRows ==> NormalRow(r)
  {
    if LoadPlotSpec(pathExists, data).Ok? {
      StringDictDistinct(data.value["sheet2panel"].entries);
      StringDictKeys(data.value["sheet2panel"].entries);
      match data.value["layout"]
      case Leaf(Str(s)) => NormalizeRowsSpec(SplitLines(s));
      case List(items) => NormalizeRowsSpec(Shows(items));
      case Mapping(entries) => NormalizeRowsSpec(Shows(DictKeys(entries)));
    }
  }
}
