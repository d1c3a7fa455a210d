/** Index pairs of bars and the order in which their brackets are drawn:
    `combinations(range(n), 2)` (the keys of `generate_test_values`) and
    `sorted(keys, key=lambda pair: abs(pair[1] - pair[0]))`, which is a
    stable sort by span. */
module PairOrder {

  /** A key `(i, j)` of the p-value dictionary. */
  datatype Pair = Pair(i: int, j: int)

  function Span(pr: Pair): nat {
    if pr.j >= pr.i then pr.j - pr.i else pr.i - pr.j
  }

  predicate SortedBySpan(s: seq<Pair>) {
    forall a, b :: 0 <= a < b < |s| ==> Span(s[a]) <= Span(s[b])
  }

  /** In a list sorted by span, a strictly narrower pair comes first. */
  lemma NarrowerFirst(s: seq<Pair>, a: nat, b: nat)
    requires SortedBySpan(s)
    requires a < |s| && b < |s|
    requires Span(s[a]) < Span(s[b])
    ensures a < b
  {
  }

  /** The elements of `s` whose span is `k`, in their order in `s`. */
  function WithSpan(s: seq<Pair>, k: nat): (r: seq<Pair>)
    ensures |r| <= |s|
  {
    if s == [] then []
    else Sel(s[0], k) + WithSpan(s[1..], k)
  }

  /** `[x]` when `x` has span `k`, otherwise nothing. */
  function Sel(x: Pair, k: nat): seq<Pair> {
    if Span(x) == k then [x] else []
  }

  lemma WithSpanCons(x: Pair, t: seq<Pair>, k: nat)
    ensures WithSpan([x] + t, k) == Sel(x, k) + WithSpan(t, k)
  {
    assert ([x] + t)[1..] == t;
  }

  /** Insert `x` in front of the first element whose span is at least its
      own: the step of a stable insertion sort that takes the input from
      the right. */
  function Insert(x: Pair, t: seq<Pair>): (r: seq<Pair>)
    ensures |r| == |t| + 1
    ensures multiset(r) == multiset(t) + multiset{x}
  {
    if t == [] then [x]
    else if Span(x) <= Span(t[0]) then [x] + t
    else
      assert t == [t[0]] + t[1..];
      [t[0]] + Insert(x, t[1..])
  }

  predicate AllAtLeast(s: seq<Pair>, b: nat) {
    forall k :: 0 <= k < |s| ==> b <= Span(s[k])
  }

  lemma {:induction false} InsertAtLeast(x: Pair, t: seq<Pair>, b: nat)
    requires AllAtLeast(t, b) && b <= Span(x)
    ensures AllAtLeast(Insert(x, t), b)
  {
    if t != [] && Span(x) > Span(t[0]) {
      InsertAtLeast(x, t[1..], b);
    }
  }

  lemma {:induction false} InsertSorted(x: Pair, t: seq<Pair>)
    requires SortedBySpan(t)
    ensures SortedBySpan(Insert(x, t))
  {
    if t != [] {
      if Span(x) <= Span(t[0]) {
        assert AllAtLeast(t, Span(x));
      } else {
        var u := Insert(x, t[1..]);
        InsertSorted(x, t[1..]);
        InsertAtLeast(x, t[1..], Span(t[0]));
        assert Insert(x, t) == [t[0]] + u;
      }
    }
  }

  /** Putting a narrower pair `y` in front of both sides of a span-`k`
      filter equation that begins with the wider `x` keeps it true. */
  lemma ConsSwap(x: Pair, y: Pair, u: seq<Pair>, rest: seq<Pair>, k: nat)
    requires Span(y) < Span(x)
    requires WithSpan(u, k) == Sel(x, k) + WithSpan(rest, k)
    ensures WithSpan([y] + u, k) == Sel(x, k) + WithSpan([y] + rest, k)
  {
    WithSpanCons(y, u, k);
    WithSpanCons(y, rest, k);
    assert Sel(x, k) == [] || Sel(y, k) == [];
    assert Sel(y, k) + (Sel(x, k) + WithSpan(rest, k)) == Sel(x, k) + (Sel(y, k) + WithSpan(rest, k));
  }

  /** Inserting keeps the pairs of every span in order, with `x` in front
      of the pairs of its own span. */
  lemma {:induction false} InsertWithSpan(x: Pair, t: seq<Pair>, k: nat)
    requires SortedBySpan(t)
    ensures WithSpan(Insert(x, t), k) == Sel(x, k) + WithSpan(t, k)
  {
    if t == [] {
      WithSpanCons(x, t, k);
    } else if Span(x) <= Span(t[0]) {
      WithSpanCons(x, t, k);
    } else {
      InsertWithSpan(x, t[1..], k);
      assert t == [t[0]] + t[1..];
      ConsSwap(x, t[0], Insert(x, t[1..]), t[1..], k);
    }
  }

  /** Python's `sorted` with the span as key. Sorting is stable: among the
      pairs of one span the input order is kept, so the result is the only
      list that is sorted by span, holds the same pairs, and lists the pairs
      of every span in their input order. */
  function SortBySpan(s: seq<Pair>): (r: seq<Pair>)
    ensures |r| == |s|
    ensures SortedBySpan(r)
    ensures multiset(r) == multiset(s)
    ensures forall k: nat :: WithSpan(r, k) == WithSpan(s, k)
  {
    if s == [] then []
    else
      var t := SortBySpan(s[1..]);
      assert s == [s[0]] + s[1..];
      InsertSorted(s[0], t);
      assert forall k: nat :: WithSpan(Insert(s[0], t), k) == WithSpan(s, k) by {
        forall k: nat ensures WithSpan(Insert(s[0], t), k) == WithSpan(s, k) {
          InsertWithSpan(s[0], t, k);
          WithSpanCons(s[0], s[1..], k);
        }
      }
      Insert(s[0], t)
  }

  /** The pairs `(i, j)` with `i < j < n`, for `j` from `from` upward. */
  function Row(i: int, from: int, n: int): (r: seq<Pair>)
    decreases n - from
  {
    if from >= n then [] else [Pair(i, from)] + Row(i, from + 1, n)
  }

  /** `combinations(range(n), 2)` starting at first element `i`. */
  function CombinationsFrom(i: int, n: int): (r: seq<Pair>)
    decreases n - i
  {
    if i >= n then [] else Row(i, i + 1, n) + CombinationsFrom(i + 1, n)
  }

  /** `combinations(range(n), 2)` in its order: lexicographic. */
  function Combinations(n: nat): seq<Pair> {
    CombinationsFrom(0, n)
  }

  predicate LexBefore(a: Pair, b: Pair) {
    a.i < b.i || (a.i == b.i && a.j < b.j)
  }

  lemma {:induction false} RowSpec(i: int, from: int, n: int)
    ensures forall pr :: pr in Row(i, from, n) <==> pr.i == i && from <= pr.j < n
    ensures forall a, b :: 0 <= a < b < |Row(i, from, n)| ==>
              Row(i, from, n)[a].j < Row(i, from, n)[b].j
    ensures forall a :: 0 <= a < |Row(i, from, n)| ==> Row(i, from, n)[a].i == i
  {
    RowMembers(i, from, n);
    RowOrder(i, from, n);
  }

  lemma {:induction false} RowMembers(i: int, from: int, n: int)
    ensures forall pr :: pr in Row(i, from, n) <==> pr.i == i && from <= pr.j < n
    decreases n - from
  {
    if from < n {
      RowMembers(i, from + 1, n);
      assert Row(i, from, n) == [Pair(i, from)] + Row(i, from + 1, n);
    }
  }

  lemma {:induction false} RowOrder(i: int, from: int, n: int)
    ensures forall a :: 0 <= a < |Row(i, from, n)| ==> Row(i, from, n)[a].i == i && from <= Row(i, from, n)[a].j
    ensures forall a, b :: 0 <= a < b < |Row(i, from, n)| ==>
              Row(i, from, n)[a].j < Row(i, from, n)[b].j
    decreases n - from
  {
    if from < n {
      RowOrder(i, from + 1, n);
      var r := Row(i, from + 1, n);
      var s := [Pair(i, from)] + r;
      assert Row(i, from, n) == s;
      forall a | 0 <= a < |s| ensures s[a].i == i && from <= s[a].j {
        if a > 0 { assert s[a] == r[a - 1]; }
      }
      forall a, b | 0 <= a < b < |s| ensures s[a].j < s[b].j {
        assert s[b] == r[b - 1];
        if a > 0 { assert s[a] == r[a - 1]; }
      }
    }
  }

  lemma {:induction false} CombinationsFromMembers(i: int, n: int)
    ensures forall pr :: pr in CombinationsFrom(i, n) <==> i <= pr.i < pr.j < n
    decreases n - i
  {
    if i < n {
      RowSpec(i, i + 1, n);
      CombinationsFromMembers(i + 1, n);
      assert CombinationsFrom(i, n) == Row(i, i + 1, n) + CombinationsFrom(i + 1, n);
    }
  }

  lemma {:induction false} CombinationsFromOrder(i: int, n: int)
    ensures forall a, b :: 0 <= a < b < |CombinationsFrom(i, n)| ==>
              LexBefore(CombinationsFrom(i, n)[a], CombinationsFrom(i, n)[b])
    ensures forall a :: 0 <= a < |CombinationsFrom(i, n)| ==> CombinationsFrom(i, n)[a].i >= i
    decreases n - i
  {
    if i < n {
      RowSpec(i, i + 1, n);
      CombinationsFromOrder(i + 1, n);
      var r := Row(i, i + 1, n);
      var c := CombinationsFrom(i + 1, n);
      ConcatLex(r, c, i);
    }
  }

  /** A row of first element `i` followed by pairs whose first elements
      exceed `i`, each part in lexicographic order, is in lexicographic
      order. */
  lemma ConcatLex(r: seq<Pair>, c: seq<Pair>, i: int)
    requires forall a, b :: 0 <= a < b < |r| ==> r[a].j < r[b].j
    requires forall a :: 0 <= a < |r| ==> r[a].i == i
    requires forall a, b :: 0 <= a < b < |c| ==> LexBefore(c[a], c[b])
    requires forall a :: 0 <= a < |c| ==> c[a].i >= i + 1
    ensures forall a, b :: 0 <= a < b < |r + c| ==> LexBefore((r + c)[a], (r + c)[b])
    ensures forall a :: 0 <= a < |r + c| ==> (r + c)[a].i >= i
  {
    var s := r + c;
    forall a, b | 0 <= a < b < |s| ensures LexBefore(s[a], s[b]) {
      if b < |r| {
        assert s[a] == r[a] && s[b] == r[b];
      } else if a < |r| {
        assert s[a] == r[a] && s[b] == c[b - |r|];
      } else {
        assert s[a] == c[a - |r|] && s[b] == c[b - |r|];
      }
    }
    forall a | 0 <= a < |s| ensures s[a].i >= i {
      if a < |r| { assert s[a] == r[a]; } else { assert s[a] == c[a - |r|]; }
    }
  }

  /** The keys of `generate_test_values` are exactly the pairs
      `0 <= i < j < n`, each once, in lexicographic order. */
  lemma CombinationsSpec(n: nat)
    ensures forall pr :: pr in Combinations(n) <==> 0 <= pr.i < pr.j < n
    ensures forall a, b :: 0 <= a < b < |Combinations(n)| ==>
              LexBefore(Combinations(n)[a], Combinations(n)[b])
    ensures forall a, b :: 0 <= a < b < |Combinations(n)| ==>
              Combinations(n)[a] != Combinations(n)[b]
  {
    CombinationsFromMembers(0, n);
    CombinationsFromOrder(0, n);
  }
}
