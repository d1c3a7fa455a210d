/** mplib/config.py: the parsed plot specification, and the insertion-ordered
    string dictionary its mapping is kept in. */
module Config {
  import opened Wrappers

  /** A Python `dict[str, str]`: its items in insertion order, keys
      distinct. */
  type Dict = seq<(string, string)>

  predicate DistinctKeys(d: Dict) {
    forall i, j :: 0 <= i < j < |d| ==> d[i].0 != d[j].0
  }

  /** `d.keys()`, in order. */
  function DictKeys<K, V>(d: seq<(K, V)>): (r: seq<K>)
    ensures |r| == |d|
    ensures forall k :: 0 <= k < |d| ==> r[k] == d[k].0
  {
    if d == [] then [] else [d[0].0] + DictKeys(d[1..])
  }

  /** `d.values()`, in order. */
  function DictValues(d: Dict): (r: seq<string>)
    ensures |r| == |d|
    ensures forall k :: 0 <= k < |d| ==> r[k] == d[k].1
  {
    if d == [] then [] else [d[0].1] + DictValues(d[1..])
  }

  /** `d.get(k)`. */
  function Get(d: Dict, k: string): (r: Option<string>)
    ensures r.None? <==> k !in DictKeys(d)
  {
    if d == [] then None else if d[0].0 == k then Some(d[0].1) else Get(d[1..], k)
  }

  /** A successful lookup returns the value of the first entry with that
      key. */
  lemma {:induction false} GetFound(d: Dict, k: string)
    ensures Get(d, k).Some? ==>
              exists i :: 0 <= i < |d| && d[i] == (k, Get(d, k).value) && forall j :: 0 <= j < i ==> d[j].0 != k
  {
    if d != [] && d[0].0 != k && Get(d, k).Some? {
      GetFound(d[1..], k);
      var i :| 0 <= i < |d[1..]| && d[1..][i] == (k, Get(d, k).value) && forall j :: 0 <= j < i ==> d[1..][j].0 != k;
      assert d[i + 1] == d[1..][i];
      forall j | 0 <= j < i + 1 ensures d[j].0 != k {
        if j > 0 { assert d[j] == d[1..][j - 1]; }
      }
    }
  }

  /** `d[k] = v`: a present key keeps its place and takes the new value, a
      new key goes to the end. */
  function Put(d: Dict, k: string, v: string): (r: Dict) {
    if d == [] then [(k, v)]
    else if d[0].0 == k then [(k, v)] + d[1..]
    else [d[0]] + Put(d[1..], k, v)
  }

  /** After `d[k] = v` the keys are the old ones in the old order, with
      `k` appended when it is new. */
  lemma {:induction false} PutKeys(d: Dict, k: string, v: string)
    ensures DictKeys(Put(d, k, v)) == if k in DictKeys(d) then DictKeys(d) else DictKeys(d) + [k]
  {
    if d != [] {
      assert DictKeys(d) == [d[0].0] + DictKeys(d[1..]);
      if d[0].0 != k {
        PutKeys(d[1..], k, v);
        assert Put(d, k, v)[1..] == Put(d[1..], k, v);
      } else {
        assert ([(k, v)] + d[1..])[1..] == d[1..];
      }
    }
  }

  /** After `d[k] = v`, `k` maps to `v` and every other key `x` to what it
      did. */
  lemma {:induction false} PutGet(d: Dict, k: string, v: string, x: string)
    ensures Get(Put(d, k, v), x) == if x == k then Some(v) else Get(d, x)
  {
    if d != [] {
      if d[0].0 != k {
        PutGet(d[1..], k, v, x);
        assert Put(d, k, v)[1..] == Put(d[1..], k, v);
      } else {
        assert ([(k, v)] + d[1..])[1..] == d[1..];
      }
    }
  }

  /** Assignment keeps the keys distinct. */
  lemma PutDistinct(d: Dict, k: string, v: string)
    requires DistinctKeys(d)
    ensures DistinctKeys(Put(d, k, v))
  {
    PutKeys(d, k, v);
    var ks := DictKeys(Put(d, k, v));
    forall i, j | 0 <= i < j < |ks| ensures ks[i] != ks[j] {
      if k !in DictKeys(d) && j == |ks| - 1 {
        assert ks[i] == DictKeys(d)[i];
        assert DictKeys(d)[i] in DictKeys(d);
      }
    }
  }

  /** `PlotSpec`: the sheet-to-panel mapping and the layout rows. */
  datatype PlotSpec = PlotSpec(sheet2panel: Dict, layoutRows: seq<string>)
}
