/** The small part of pandas and numpy that the statistics scripts rely on,
    over a wide sheet held column by column: `dropna`, `unique`,
    `groupby(..., sort=False)` keys, the first index found by
    `np.where(a == x)[0]`, and `melt` followed by `dropna`. */
module Frames {
  import opened Wrappers

  /** A data column of the sheet: its header and one optional number per
      row (`None` is a missing cell, read as NaN). */
  datatype Column = Column(name: string, cells: seq<Option<real>>)

  /** A wide sheet: the leading (grouping) column and the other columns, in
      sheet order. A missing group cell is `None`. */
  datatype Sheet = Sheet(lead: seq<Option<string>>, columns: seq<Column>)

  predicate WellFormed(s: Sheet) {
    forall c :: 0 <= c < |s.columns| ==> |s.columns[c].cells| == |s.lead|
  }

  predicate DistinctNames(cols: seq<Column>) {
    forall a, b :: 0 <= a < b < |cols| ==> cols[a].name != cols[b].name
  }

  /** `Series.dropna()`: the present values in order (also the group keys
      of a column with the missing ones dropped). */
  function Present<T>(cells: seq<Option<T>>): (r: seq<T>)
    ensures |r| <= |cells|
  {
    if cells == [] then []
    else (if cells[0].Some? then [cells[0].value] else []) + Present(cells[1..])
  }

  /** `dropna()` keeps a value exactly when some cell holds it, and keeps
      one value per present cell. */
  lemma {:induction false} PresentMembers<T>(cells: seq<Option<T>>)
    ensures forall x :: x in Present(cells) <==> Some(x) in cells
    ensures |Present(cells)| == |set k | 0 <= k < |cells| && cells[k].Some?|
  {
    if cells != [] {
      PresentMembers(cells[1..]);
      assert cells == [cells[0]] + cells[1..];
    }
    PresentCount(cells);
  }

  lemma {:induction false} PresentSnoc<T>(cells: seq<Option<T>>, x: Option<T>)
    ensures Present(cells + [x]) == Present(cells) + (if x.Some? then [x.value] else [])
  {
    if cells == [] {
      assert cells + [x] == [x];
    } else {
      assert (cells + [x])[0] == cells[0];
      assert (cells + [x])[1..] == cells[1..] + [x];
      PresentSnoc(cells[1..], x);
    }
  }

  lemma {:induction false} PresentCount<T>(cells: seq<Option<T>>)
    ensures |Present(cells)| == |set k | 0 <= k < |cells| && cells[k].Some?|
  {
    if cells != [] {
      var n := |cells| - 1;
      var init := cells[..n];
      PresentCount(init);
      PresentSnoc(init, cells[n]);
      assert cells == init + [cells[n]];
      var all := set k | 0 <= k < |cells| && cells[k].Some?;
      var lower := set k | 0 <= k < n && init[k].Some?;
      var top: set<int> := if cells[n].Some? then {n} else {};
      forall k ensures k in all <==> k in lower + top {
        if 0 <= k < n {
          assert init[k] == cells[k];
        }
      }
      assert all == lower + top;
      assert n !in lower;
    }
  }

  predicate Distinct<T(==)>(s: seq<T>) {
    forall a, b :: 0 <= a < b < |s| ==> s[a] != s[b]
  }

  /** `np.where(s == x)[0][0]` when that array is non-empty. */
  function IndexOf<T(==)>(s: seq<T>, x: T): (r: Option<nat>)
    ensures r.None? <==> x !in s
    ensures r.Some? ==> r.value < |s| && s[r.value] == x && x !in s[..r.value]
  {
    if s == [] then None
    else if s[0] == x then Some(0)
    else
      match IndexOf(s[1..], x)
      case None => None
      case Some(k) =>
        assert s[..k + 1] == [s[0]] + s[1..][..k];
        Some(k + 1)
  }

  /** Appending never moves the first occurrence of an element already
      present. */
  lemma {:induction false} IndexOfAppend<T>(s: seq<T>, t: seq<T>, x: T)
    requires x in s
    ensures IndexOf(s + t, x) == IndexOf(s, x)
  {
    assert (s + t)[0] == s[0];
    if s[0] != x {
      assert (s + t)[1..] == s[1..] + t;
      assert x in s[1..];
      IndexOfAppend(s[1..], t, x);
    }
  }

  /** `unique()`: the distinct elements of `s` in order of first
      appearance. */
  function Unique<T(==,!new)>(s: seq<T>): (r: seq<T>)
    ensures Distinct(r)
    ensures forall x :: x in r <==> x in s
  {
    if s == [] then []
    else
      var p := Unique(s[..|s| - 1]);
      assert s == s[..|s| - 1] + [s[|s| - 1]];
      if s[|s| - 1] in p then p else p + [s[|s| - 1]]
  }

  /** The elements of `unique()` come in the order of their first
      occurrence. */
  lemma {:induction false} UniqueOrder<T(!new)>(s: seq<T>)
    ensures forall a, b :: 0 <= a < b < |Unique(s)| ==>
              IndexOf(s, Unique(s)[a]).value < IndexOf(s, Unique(s)[b]).value
  {
    if s != [] {
      var init := s[..|s| - 1];
      var e := s[|s| - 1];
      var p := Unique(init);
      UniqueOrder(init);
      assert s == init + [e];
      forall x | x in p ensures IndexOf(s, x) == IndexOf(init, x) {
        IndexOfAppend(init, [e], x);
      }
      if e !in p {
        var r := p + [e];
        assert e !in init;
        forall a, b | 0 <= a < b < |r|
          ensures IndexOf(s, r[a]).value < IndexOf(s, r[b]).value
        {
          assert r[a] == p[a] && r[a] in p;
          if b < |p| { assert r[b] == p[b] && r[b] in p; }
          else { assert r[b] == e; }
        }
      }
    }
  }

  /** The keys of `groupby(lead, sort=False)`: the distinct present keys in
      order of first appearance. A missing group key forms no group. */
  function Groups(lead: seq<Option<string>>): (r: seq<string>)
    ensures Distinct(r)
  {
    Unique(Present(lead))
  }

  lemma GroupsSpec(lead: seq<Option<string>>)
    ensures forall g :: g in Groups(lead) <==> Some(g) in lead
  {
    PresentMembers(lead);
  }

  /** `group_data[col].dropna()`: the present cells of a column on the rows
      whose key is `g`, in row order. */
  function Select(lead: seq<Option<string>>, cells: seq<Option<real>>, g: string): (r: seq<real>)
    requires |cells| == |lead|
    ensures |r| <= |cells|
  {
    if lead == [] then []
    else (if lead[0] == Some(g) && cells[0].Some? then [cells[0].value] else [])
         + Select(lead[1..], cells[1..], g)
  }

  /** The number of rows whose key is `g`. */
  function RowCount(lead: seq<Option<string>>, g: string): nat {
    if lead == [] then 0 else (if lead[0] == Some(g) then 1 else 0) + RowCount(lead[1..], g)
  }

  /** A group's values are exactly the present cells of its rows: never more
      than it has rows, and none for a key that does not occur. */
  lemma {:induction false} SelectSpec(lead: seq<Option<string>>, cells: seq<Option<real>>, g: string)
    requires |cells| == |lead|
    ensures |Select(lead, cells, g)| <= RowCount(lead, g)
    ensures |Select(lead, cells, g)| == |set r | 0 <= r < |lead| && lead[r] == Some(g) && cells[r].Some?|
    ensures forall x :: x in Select(lead, cells, g) <==>
              exists r :: 0 <= r < |lead| && lead[r] == Some(g) && cells[r] == Some(x)
    ensures Some(g) !in lead ==> Select(lead, cells, g) == []
  {
    if lead != [] {
      SelectSpec(lead[1..], cells[1..], g);
      forall x ensures x in Select(lead, cells, g) <==>
                exists r :: 0 <= r < |lead| && lead[r] == Some(g) && cells[r] == Some(x)
      {
        if exists r :: 0 <= r < |lead| && lead[r] == Some(g) && cells[r] == Some(x) {
          var r :| 0 <= r < |lead| && lead[r] == Some(g) && cells[r] == Some(x);
          if r > 0 {
            assert lead[1..][r - 1] == Some(g) && cells[1..][r - 1] == Some(x);
          }
        }
        if x in Select(lead[1..], cells[1..], g) {
          var r :| 0 <= r < |lead[1..]| && lead[1..][r] == Some(g) && cells[1..][r] == Some(x);
          assert lead[r + 1] == Some(g) && cells[r + 1] == Some(x);
        }
      }
      if Some(g) !in lead { assert Some(g) !in lead[1..]; }
    }
    SelectCount(lead, cells, g);
  }

  /** Column `cells` with the cells of rows not keyed `g` blanked out. */
  function Mask(lead: seq<Option<string>>, cells: seq<Option<real>>, g: string): (m: seq<Option<real>>)
    requires |cells| == |lead|
    ensures |m| == |lead|
    ensures forall r :: 0 <= r < |lead| ==> m[r] == if lead[r] == Some(g) then cells[r] else None
  {
    if lead == [] then []
    else [if lead[0] == Some(g) then cells[0] else None] + Mask(lead[1..], cells[1..], g)
  }

  /** Selecting a group is dropping the missing cells of its masked column. */
  lemma {:induction false} SelectMask(lead: seq<Option<string>>, cells: seq<Option<real>>, g: string)
    requires |cells| == |lead|
    ensures Select(lead, cells, g) == Present(Mask(lead, cells, g))
  {
    if lead != [] {
      SelectMask(lead[1..], cells[1..], g);
      var m := Mask(lead, cells, g);
      assert m[1..] == Mask(lead[1..], cells[1..], g);
    }
  }

  lemma SelectCount(lead: seq<Option<string>>, cells: seq<Option<real>>, g: string)
    requires |cells| == |lead|
    ensures |Select(lead, cells, g)| == |set r | 0 <= r < |lead| && lead[r] == Some(g) && cells[r].Some?|
  {
    var m := Mask(lead, cells, g);
    SelectMask(lead, cells, g);
    PresentCount(m);
    assert (set r | 0 <= r < |m| && m[r].Some?) == (set r | 0 <= r < |lead| && lead[r] == Some(g) && cells[r].Some?);
  }

  /** `GroupValues(s, g, c)`: column `c` of group `g`, missing cells dropped. */
  function GroupValues(s: Sheet, g: string, c: nat): (r: seq<real>)
    requires WellFormed(s) && c < |s.columns|
  {
    Select(s.lead, s.columns[c].cells, g)
  }

  // ---------------------------------------------------------------------
  // Long format

  /** A row of `df.melt(id_vars=[lead], var_name="Genotype",
      value_name="Value")` that survived `dropna(subset=["Value"])`. */
  datatype LongRow = LongRow(lead: Option<string>, genotype: string, value: real)

  /** The melted rows of one column: one per present cell, in row order. */
  function MeltColumn(lead: seq<Option<string>>, c: Column): (r: seq<LongRow>)
    requires |c.cells| == |lead|
  {
    if lead == [] then []
    else (if c.cells[0].Some? then [LongRow(lead[0], c.name, c.cells[0].value)] else [])
         + MeltColumn(lead[1..], Column(c.name, c.cells[1..]))
  }

  /** `reshape_to_long_format`: the columns one after the other. */
  function Melt(s: Sheet): (r: seq<LongRow>)
    requires WellFormed(s)
    decreases |s.columns|
  {
    if s.columns == [] then []
    else MeltColumn(s.lead, s.columns[0]) + Melt(Sheet(s.lead, s.columns[1..]))
  }

  /** The values of rows with key `g` and genotype `geno`, in order:
      `group_data[group_data["Genotype"] == geno]["Value"]`. */
  function LongValues(rows: seq<LongRow>, g: string, geno: string): seq<real> {
    if rows == [] then []
    else (if rows[0].lead == Some(g) && rows[0].genotype == geno then [rows[0].value] else [])
         + LongValues(rows[1..], g, geno)
  }

  /** The genotype of every row of group `g`, in order. */
  function GenotypesOf(rows: seq<LongRow>, g: string): seq<string> {
    if rows == [] then []
    else (if rows[0].lead == Some(g) then [rows[0].genotype] else []) + GenotypesOf(rows[1..], g)
  }

  /** A genotype is listed for `g` exactly when some row of `g` has it. */
  lemma {:induction false} GenotypesOfMembers(rows: seq<LongRow>, g: string)
    ensures forall n :: n in GenotypesOf(rows, g) <==>
              exists r :: 0 <= r < |rows| && rows[r].lead == Some(g) && rows[r].genotype == n
  {
    if rows != [] {
      GenotypesOfMembers(rows[1..], g);
      forall n ensures n in GenotypesOf(rows, g) <==>
                exists r :: 0 <= r < |rows| && rows[r].lead == Some(g) && rows[r].genotype == n
      {
        if n in GenotypesOf(rows[1..], g) {
          var r :| 0 <= r < |rows[1..]| && rows[1..][r].lead == Some(g) && rows[1..][r].genotype == n;
          assert rows[r + 1] == rows[1..][r];
        }
        if exists r :: 0 <= r < |rows| && rows[r].lead == Some(g) && rows[r].genotype == n {
          var r :| 0 <= r < |rows| && rows[r].lead == Some(g) && rows[r].genotype == n;
          if r > 0 { assert rows[1..][r - 1] == rows[r]; }
        }
      }
    }
  }

  /** The key of every row, in order. */
  function LeadsOf(rows: seq<LongRow>): (r: seq<Option<string>>)
    ensures |r| == |rows|
    ensures forall k :: 0 <= k < |rows| ==> r[k] == rows[k].lead
  {
    if rows == [] then [] else [rows[0].lead] + LeadsOf(rows[1..])
  }

  lemma LongValuesAppend(a: seq<LongRow>, b: seq<LongRow>, g: string, geno: string)
    ensures LongValues(a + b, g, geno) == LongValues(a, g, geno) + LongValues(b, g, geno)
  {
    if a == [] { assert a + b == b; }
    if a != [] {
      assert (a + b)[0] == a[0] && (a + b)[1..] == a[1..] + b;
      LongValuesAppend(a[1..], b, g, geno);
    }
  }

  lemma GenotypesAppend(a: seq<LongRow>, b: seq<LongRow>, g: string)
    ensures GenotypesOf(a + b, g) == GenotypesOf(a, g) + GenotypesOf(b, g)
  {
    if a == [] { assert a + b == b; }
    if a != [] {
      assert (a + b)[0] == a[0] && (a + b)[1..] == a[1..] + b;
      GenotypesAppend(a[1..], b, g);
    }
  }

  /** The indices, shifted by `base`, of the present cells, in row order. */
  function PresentRows<T>(cells: seq<Option<T>>, base: nat): seq<nat> {
    if cells == [] then []
    else (if cells[0].Some? then [base] else []) + PresentRows(cells[1..], base + 1)
  }

  /** `PresentRows` lists, in increasing order, the rows of the present
      cells; the `k`-th of them holds the `k`-th value `dropna()` keeps. */
  lemma {:induction false} PresentRowsSpec<T>(cells: seq<Option<T>>, base: nat)
    ensures |PresentRows(cells, base)| == |Present(cells)|
    ensures forall k :: 0 <= k < |PresentRows(cells, base)| ==>
              base <= PresentRows(cells, base)[k] < base + |cells|
              && cells[PresentRows(cells, base)[k] - base] == Some(Present(cells)[k])
    ensures forall a, b :: 0 <= a < b < |PresentRows(cells, base)| ==> PresentRows(cells, base)[a] < PresentRows(cells, base)[b]
  {
    if cells != [] {
      PresentRowsSpec(cells[1..], base + 1);
      var tr := PresentRows(cells[1..], base + 1);
      var tp := Present(cells[1..]);
      var hr: seq<nat> := if cells[0].Some? then [base] else [];
      var hp: seq<T> := if cells[0].Some? then [cells[0].value] else [];
      assert PresentRows(cells, base) == hr + tr;
      assert Present(cells) == hp + tp;
      forall k | 0 <= k < |hr + tr|
        ensures base <= (hr + tr)[k] < base + |cells| && cells[(hr + tr)[k] - base] == Some((hp + tp)[k])
      {
        if k >= |hr| {
          assert (hr + tr)[k] == tr[k - |hr|] && (hp + tp)[k] == tp[k - |hr|];
          assert cells[1..][tr[k - |hr|] - (base + 1)] == cells[tr[k - |hr|] - base];
        }
      }
    }
  }

  lemma {:induction false} PresentRowsShift<T>(cells: seq<Option<T>>, base: nat)
    ensures |PresentRows(cells, base + 1)| == |PresentRows(cells, base)|
    ensures forall k :: 0 <= k < |PresentRows(cells, base)| ==> PresentRows(cells, base + 1)[k] == PresentRows(cells, base)[k] + 1
  {
    if cells != [] {
      PresentRowsShift(cells[1..], base + 1);
    }
  }

  /** The `k`-th melted row of a column comes from the `k`-th present cell:
      it carries that row's key and that cell's value. */
  lemma MeltColumnLeads(lead: seq<Option<string>>, c: Column)
    requires |c.cells| == |lead|
    ensures |PresentRows(c.cells, 0)| == |MeltColumn(lead, c)|
    ensures forall k :: 0 <= k < |MeltColumn(lead, c)| ==>
              PresentRows(c.cells, 0)[k] < |lead|
              && MeltColumn(lead, c)[k].lead == lead[PresentRows(c.cells, 0)[k]]
              && c.cells[PresentRows(c.cells, 0)[k]] == Some(MeltColumn(lead, c)[k].value)
  {
    MeltColumnRows(lead, c);
    PresentRowsSpec(c.cells, 0);
    forall k | 0 <= k < |MeltColumn(lead, c)|
      ensures PresentRows(c.cells, 0)[k] < |lead| && MeltColumn(lead, c)[k].lead == lead[PresentRows(c.cells, 0)[k]]
    {
      MeltLeadAt(lead, c, k);
    }
  }

  lemma {:induction false} MeltLeadAt(lead: seq<Option<string>>, c: Column, k: nat)
    requires |c.cells| == |lead|
    requires k < |MeltColumn(lead, c)|
    ensures k < |PresentRows(c.cells, 0)|
    ensures PresentRows(c.cells, 0)[k] < |lead| && MeltColumn(lead, c)[k].lead == lead[PresentRows(c.cells, 0)[k]]
  {
    var tail := Column(c.name, c.cells[1..]);
    var m := MeltColumn(lead[1..], tail);
    var tr := PresentRows(c.cells[1..], 1);
    if c.cells[0].Some? {
      assert MeltColumn(lead, c) == [LongRow(lead[0], c.name, c.cells[0].value)] + m;
      assert PresentRows(c.cells, 0) == [0] + tr;
      if k > 0 {
        MeltLeadAt(lead[1..], tail, k - 1);
        PresentRowsShift(c.cells[1..], 0);
        assert MeltColumn(lead, c)[k] == m[k - 1];
        assert PresentRows(c.cells, 0)[k] == tr[k - 1];
        assert lead[1..][PresentRows(c.cells[1..], 0)[k - 1]] == lead[tr[k - 1]];
      }
    } else {
      assert MeltColumn(lead, c) == m;
      assert PresentRows(c.cells, 0) == tr;
      MeltLeadAt(lead[1..], tail, k);
      PresentRowsShift(c.cells[1..], 0);
      assert lead[1..][PresentRows(c.cells[1..], 0)[k]] == lead[tr[k]];
    }
  }

  /** Melting one column keeps its present values in order, each row tagged
      with the column's header. */
  lemma {:induction false} MeltColumnRows(lead: seq<Option<string>>, c: Column)
    requires |c.cells| == |lead|
    ensures |MeltColumn(lead, c)| == |Present(c.cells)|
    ensures forall k :: 0 <= k < |MeltColumn(lead, c)| ==>
              MeltColumn(lead, c)[k].genotype == c.name && MeltColumn(lead, c)[k].value == Present(c.cells)[k]
  {
    if lead != [] {
      var tail := Column(c.name, c.cells[1..]);
      MeltColumnRows(lead[1..], tail);
      var head: seq<LongRow> := if c.cells[0].Some? then [LongRow(lead[0], c.name, c.cells[0].value)] else [];
      var m := MeltColumn(lead[1..], tail);
      var pm := Present(c.cells[1..]);
      var ph: seq<real> := if c.cells[0].Some? then [c.cells[0].value] else [];
      assert MeltColumn(lead, c) == head + m;
      assert Present(c.cells) == ph + pm;
      forall k | 0 <= k < |head + m|
        ensures (head + m)[k].genotype == c.name && (head + m)[k].value == (ph + pm)[k]
      {
        if k >= |head| {
          assert (head + m)[k] == m[k - |head|];
          assert (ph + pm)[k] == pm[k - |head|];
        }
      }
    }
  }

  /** Selecting a melted column back by key and header gives that key's
      values of the column; any other header selects nothing. */
  lemma {:induction false} MeltColumnValues(lead: seq<Option<string>>, c: Column, g: string, geno: string)
    requires |c.cells| == |lead|
    ensures LongValues(MeltColumn(lead, c), g, geno) == (if geno == c.name then Select(lead, c.cells, g) else [])
  {
    if lead != [] {
      var tail := Column(c.name, c.cells[1..]);
      MeltColumnValues(lead[1..], tail, g, geno);
      var head: seq<LongRow> := if c.cells[0].Some? then [LongRow(lead[0], c.name, c.cells[0].value)] else [];
      assert MeltColumn(lead, c) == head + MeltColumn(lead[1..], tail);
      LongValuesAppend(head, MeltColumn(lead[1..], tail), g, geno);
    }
  }

  /** Every melted row has a header of the sheet as its genotype. */
  lemma {:induction false} MeltGenotypes(s: Sheet)
    requires WellFormed(s)
    ensures |Melt(s)| == TotalPresent(s.columns)
    decreases |s.columns|
    ensures forall k :: 0 <= k < |Melt(s)| ==>
              exists c :: 0 <= c < |s.columns| && Melt(s)[k].genotype == s.columns[c].name
  {
    if s.columns != [] {
      var rest := Sheet(s.lead, s.columns[1..]);
      MeltGenotypes(rest);
      var m0 := MeltColumn(s.lead, s.columns[0]);
      MeltColumnRows(s.lead, s.columns[0]);
      forall k | 0 <= k < |Melt(s)|
        ensures exists c :: 0 <= c < |s.columns| && Melt(s)[k].genotype == s.columns[c].name
      {
        if k < |m0| {
          assert Melt(s)[k] == m0[k];
        } else {
          assert Melt(s)[k] == Melt(rest)[k - |m0|];
          var c :| 0 <= c < |rest.columns| && Melt(rest)[k - |m0|].genotype == rest.columns[c].name;
          assert s.columns[c + 1] == rest.columns[c];
        }
      }
    }
  }

  /** The number of present cells over the given columns. */
  function TotalPresent(cols: seq<Column>): nat {
    if cols == [] then 0 else |Present(cols[0].cells)| + TotalPresent(cols[1..])
  }

  /** The long format and the wide sheet agree: with distinct headers, the
      values the long-format scripts select for key `g` and header
      `cols[c].name` are the values of column `c` for group `g`. */
  lemma {:induction false} MeltValues(s: Sheet, g: string, c: nat)
    requires WellFormed(s) && DistinctNames(s.columns) && c < |s.columns|
    ensures LongValues(Melt(s), g, s.columns[c].name) == GroupValues(s, g, c)
    decreases |s.columns|
  {
    var rest := Sheet(s.lead, s.columns[1..]);
    var name := s.columns[c].name;
    MeltColumnValues(s.lead, s.columns[0], g, name);
    LongValuesAppend(MeltColumn(s.lead, s.columns[0]), Melt(rest), g, name);
    if c == 0 {
      MeltOthers(rest, g, name);
    } else {
      assert s.columns[0].name != name;
      assert DistinctNames(rest.columns) by {
        forall a, b | 0 <= a < b < |rest.columns| ensures rest.columns[a].name != rest.columns[b].name {
          assert rest.columns[a] == s.columns[a + 1] && rest.columns[b] == s.columns[b + 1];
        }
      }
      assert rest.columns[c - 1] == s.columns[c];
      MeltValues(rest, g, c - 1);
    }
  }

  /** A header that names none of the columns selects nothing. */
  lemma {:induction false} MeltOthers(s: Sheet, g: string, name: string)
    requires WellFormed(s)
    requires forall c :: 0 <= c < |s.columns| ==> s.columns[c].name != name
    ensures LongValues(Melt(s), g, name) == []
    decreases |s.columns|
  {
    if s.columns != [] {
      var rest := Sheet(s.lead, s.columns[1..]);
      MeltColumnValues(s.lead, s.columns[0], g, name);
      LongValuesAppend(MeltColumn(s.lead, s.columns[0]), Melt(rest), g, name);
      forall c | 0 <= c < |rest.columns| ensures rest.columns[c].name != name {
        assert rest.columns[c] == s.columns[c + 1];
      }
      MeltOthers(rest, g, name);
    }
  }
}
