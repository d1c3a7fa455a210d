/** Option and Result: the error paths of the Python code (exceptions,
    `None` results) are modelled by these values. */
module Wrappers {
  datatype Option<+T> = None | Some(value: T)

  datatype Result<+T, +E> = Ok(value: T) | Err(error: E)
}

/** The parts of Python's `str` that the modelled code relies on:
    `isspace`, `strip()`, `split()`, `splitlines()` and `sep.join(...)`. */
module PyStr {

  /** Python's `str.isspace` for one character (Py_UNICODE_ISSPACE):
      the characters of bidirectional class WS, B or S, or category Zs. */
  predicate IsSpace(c: char) {
    ('\U{9}' <= c <= '\U{D}') || ('\U{1C}' <= c <= '\U{20}')
    || c == '\U{85}' || c == '\U{A0}' || c == '\U{1680}'
    || ('\U{2000}' <= c <= '\U{200A}') || c == '\U{2028}' || c == '\U{2029}'
    || c == '\U{202F}' || c == '\U{205F}' || c == '\U{3000}'
  }

  predicate NoSpace(s: string) {
    forall k :: 0 <= k < |s| ==> !IsSpace(s[k])
  }

  /** True when `s` has no whitespace at either end (what `strip()` leaves). */
  predicate Trimmed(s: string) {
    s == [] || (!IsSpace(s[0]) && !IsSpace(s[|s| - 1]))
  }

  function TrimLeft(s: string): (r: string)
    ensures |r| <= |s|
  {
    if s != [] && IsSpace(s[0]) then TrimLeft(s[1..]) else s
  }

  function TrimRight(s: string): (r: string)
    ensures |r| <= |s|
  {
    if s != [] && IsSpace(s[|s| - 1]) then TrimRight(s[..|s| - 1]) else s
  }

  /** `lstrip()` cuts a whitespace prefix and stops at a non-space. */
  lemma {:induction false} TrimLeftSpec(s: string)
    ensures TrimLeft(s) == s[|s| - |TrimLeft(s)|..]
    ensures TrimLeft(s) == [] || !IsSpace(TrimLeft(s)[0])
    ensures forall k :: 0 <= k < |s| - |TrimLeft(s)| ==> IsSpace(s[k])
  {
    if s != [] && IsSpace(s[0]) {
      TrimLeftSpec(s[1..]);
      assert forall k :: 1 <= k < |s| ==> s[k] == s[1..][k - 1];
    }
  }

  /** `rstrip()` cuts a whitespace suffix and stops at a non-space. */
  lemma {:induction false} TrimRightSpec(s: string)
    ensures TrimRight(s) == s[..|TrimRight(s)|]
    ensures TrimRight(s) == [] || !IsSpace(TrimRight(s)[|TrimRight(s)| - 1])
    ensures forall k :: |TrimRight(s)| <= k < |s| ==> IsSpace(s[k])
  {
    if s != [] && IsSpace(s[|s| - 1]) {
      TrimRightSpec(s[..|s| - 1]);
    }
  }

  /** `s.strip()` with no argument. */
  function Strip(s: string): string {
    TrimRight(TrimLeft(s))
  }

  /** What strip() returns: no whitespace at either end, and no longer than
      the input (TrimLeft and TrimRight say that only whitespace is cut). */
  lemma StripSpec(s: string)
    ensures Trimmed(Strip(s))
    ensures |Strip(s)| <= |s|
  {
    var l := TrimLeft(s);
    var r := TrimRight(l);
    TrimLeftSpec(s);
    TrimRightSpec(l);
    if r != [] {
      assert r[0] == l[0];
    }
  }

  /** strip() leaves a trimmed string alone, so it is idempotent. */
  lemma {:induction false} StripTrimmed(s: string)
    requires Trimmed(s)
    ensures Strip(s) == s
  {
  }

  lemma StripIdempotent(s: string)
    ensures Strip(Strip(s)) == Strip(s)
  {
    StripSpec(s);
    StripTrimmed(Strip(s));
  }

  /** Length of the maximal non-whitespace prefix of `s`. */
  function WordLength(s: string): (n: nat)
    ensures n <= |s|
    ensures forall k :: 0 <= k < n ==> !IsSpace(s[k])
    ensures n == |s| || IsSpace(s[n])
  {
    if s == [] || IsSpace(s[0]) then 0 else 1 + WordLength(s[1..])
  }

  /** `s.split()` with no argument: the maximal runs of non-whitespace. */
  function Split(s: string): seq<string>
    decreases |s|
  {
    if s == [] then []
    else if IsSpace(s[0]) then Split(s[1..])
    else
      var n := WordLength(s);
      [s[..n]] + Split(s[n..])
  }

  lemma {:induction false} SplitWords(s: string)
    ensures forall w :: w in Split(s) ==> w != [] && NoSpace(w)
    decreases |s|
  {
    if s == [] {
    } else if IsSpace(s[0]) {
      SplitWords(s[1..]);
    } else {
      var n := WordLength(s);
      SplitWords(s[n..]);
    }
  }

  /** split() finds no token exactly when the string is all whitespace. */
  lemma {:induction false} SplitEmpty(s: string)
    ensures Split(s) == [] <==> forall k :: 0 <= k < |s| ==> IsSpace(s[k])
    decreases |s|
  {
    if s != [] && IsSpace(s[0]) {
      SplitEmpty(s[1..]);
      assert forall k :: 1 <= k < |s| ==> s[k] == s[1..][k - 1];
    }
  }

  lemma {:induction false} WordLengthOf(w: string, t: string)
    requires NoSpace(w) && (t == [] || IsSpace(t[0]))
    ensures WordLength(w + t) == |w|
  {
    if w == [] {
      assert w + t == t;
    } else {
      assert (w + t)[0] == w[0] && (w + t)[1..] == w[1..] + t;
      WordLengthOf(w[1..], t);
    }
  }

  /** A word followed by whitespace splits off as the first token. */
  lemma SplitCons(w: string, rest: string)
    requires w != [] && NoSpace(w)
    ensures Split(w + " " + rest) == [w] + Split(rest)
  {
    var s := w + " " + rest;
    WordLengthOf(w, " " + rest);
    assert s == w + (" " + rest);
    assert s[..|w|] == w && s[|w|..] == " " + rest;
    assert (" " + rest)[1..] == rest;
  }

  lemma SplitSingle(w: string)
    requires w != [] && NoSpace(w)
    ensures Split(w) == [w]
  {
    WordLengthOf(w, []);
    assert w + [] == w;
  }

  /** Joining non-empty words with single spaces and splitting again gives
      the words back. */
  lemma {:induction false} SplitJoin(ws: seq<string>)
    requires forall k :: 0 <= k < |ws| ==> ws[k] != [] && NoSpace(ws[k])
    ensures Split(Join(" ", ws)) == ws
  {
    if |ws| == 1 {
      SplitSingle(ws[0]);
    } else if |ws| > 1 {
      SplitJoin(ws[1..]);
      SplitCons(ws[0], Join(" ", ws[1..]));
      assert ws == [ws[0]] + ws[1..];
    }
  }

  /** The tokens of `split()` are non-empty and hold no whitespace, by
      position. */
  lemma SplitTokens(s: string)
    ensures forall k :: 0 <= k < |Split(s)| ==> Split(s)[k] != [] && NoSpace(Split(s)[k])
  {
    SplitWords(s);
    forall k | 0 <= k < |Split(s)| ensures Split(s)[k] != [] && NoSpace(Split(s)[k]) {
      assert Split(s)[k] in Split(s);
    }
  }

  /** `sep.join(xs)`. */
  function Join(sep: string, xs: seq<string>): string {
    if xs == [] then []
    else if |xs| == 1 then xs[0]
    else xs[0] + sep + Join(sep, xs[1..])
  }

  /** The line boundaries of `str.splitlines`: \n, \r, \r\n, \v, \f,
      \x1c, \x1d, \x1e, \x85, U+2028 and U+2029. */
  predicate IsLineBreak(c: char) {
    c == '\n' || c == '\r' || c == '\U{B}' || c == '\U{C}'
    || ('\U{1C}' <= c <= '\U{1E}') || c == '\U{85}' || c == '\U{2028}' || c == '\U{2029}'
  }

  predicate NoLineBreak(s: string) {
    forall k :: 0 <= k < |s| ==> !IsLineBreak(s[k])
  }

  /** Length of the maximal prefix of `s` without a line boundary. */
  function LineLength(s: string): (n: nat)
    ensures n <= |s|
    ensures forall k :: 0 <= k < n ==> !IsLineBreak(s[k])
    ensures n == |s| || IsLineBreak(s[n])
  {
    if s == [] || IsLineBreak(s[0]) then 0 else 1 + LineLength(s[1..])
  }

  /** `s.splitlines()`: the lines without their terminators; a final
      terminator does not start an extra empty line, and "\r\n" is one
      boundary. */
  function SplitLines(s: string): seq<string>
    decreases |s|
  {
    if s == [] then []
    else
      var n := LineLength(s);
      if n == |s| then [s]
      else
        var skip := if s[n] == '\r' && n + 1 < |s| && s[n + 1] == '\n' then 2 else 1;
        [s[..n]] + SplitLines(s[n + skip..])
  }

  lemma {:induction false} SplitLinesNoBreak(s: string)
    ensures forall l :: l in SplitLines(s) ==> NoLineBreak(l)
    decreases |s|
  {
    if s != [] {
      var n := LineLength(s);
      if n < |s| {
        var skip := if s[n] == '\r' && n + 1 < |s| && s[n + 1] == '\n' then 2 else 1;
        SplitLinesNoBreak(s[n + skip..]);
      }
    }
  }

  /** Joining non-empty lines without line boundaries by "\n" and splitting
      the result with splitlines() gives the lines back. */
  lemma {:induction false} SplitLinesJoin(xs: seq<string>)
    requires forall k :: 0 <= k < |xs| ==> xs[k] != [] && NoLineBreak(xs[k])
    ensures SplitLines(Join("\n", xs)) == xs
  {
    if |xs| == 1 {
      LineLengthAll(xs[0]);
    } else if |xs| > 1 {
      var rest := Join("\n", xs[1..]);
      SplitLinesCons(xs[0], rest);
      SplitLinesJoin(xs[1..]);
    }
  }

  /** A non-empty line without boundaries followed by "\n" is split off
      as the first line. */
  lemma SplitLinesCons(a: string, rest: string)
    requires a != [] && NoLineBreak(a)
    ensures SplitLines(a + "\n" + rest) == [a] + SplitLines(rest)
  {
    var s := a + "\n" + rest;
    LineLengthPrefix(a, "\n" + rest);
    assert s == a + ("\n" + rest);
    assert s[|a|] == '\n';
    assert s[|a| + 1..] == rest;
    assert s[..|a|] == a;
  }

  lemma {:induction false} LineLengthAll(s: string)
    requires NoLineBreak(s)
    ensures LineLength(s) == |s|
  {
  }

  lemma {:induction false} LineLengthPrefix(a: string, b: string)
    requires NoLineBreak(a)
    requires b != [] && IsLineBreak(b[0])
    ensures LineLength(a + b) == |a|
  {
    assert (a + b)[|a|] == b[0];
    assert forall k :: 0 <= k < |a| ==> (a + b)[k] == a[k];
  }
}

/** Python's ordering of `str` values (by code point, a proper prefix first)
    and `sorted(...)` of a collection of strings. */
module Lex {

  predicate Lt(a: string, b: string) {
    if a == [] then b != []
    else if b == [] then false
    else a[0] < b[0] || (a[0] == b[0] && Lt(a[1..], b[1..]))
  }

  lemma {:induction false} LtIrreflexive(a: string)
    ensures !Lt(a, a)
  {
    if a != [] { LtIrreflexive(a[1..]); }
  }

  lemma {:induction false} LtTransitive(a: string, b: string, c: string)
    requires Lt(a, b) && Lt(b, c)
    ensures Lt(a, c)
  {
    if a != [] && b != [] && c != [] && a[0] == b[0] == c[0] {
      LtTransitive(a[1..], b[1..], c[1..]);
    }
  }

  lemma {:induction false} LtTotal(a: string, b: string)
    requires a != b
    ensures Lt(a, b) || Lt(b, a)
  {
    if a != [] && b != [] && a[0] == b[0] {
      assert a == [a[0]] + a[1..] && b == [b[0]] + b[1..];
      LtTotal(a[1..], b[1..]);
    }
  }

  lemma LtAsymmetric(a: string, b: string)
    requires Lt(a, b)
    ensures !Lt(b, a)
  {
    if Lt(b, a) {
      LtTransitive(a, b, a);
      LtIrreflexive(a);
    }
  }

  predicate StrictlySorted(s: seq<string>) {
    forall i, j :: 0 <= i < j < |s| ==> Lt(s[i], s[j])
  }

  /** Insert `x` into a strictly sorted list, dropping it when present. */
  function Insert(x: string, s: seq<string>): (r: seq<string>)
    requires StrictlySorted(s)
    ensures StrictlySorted(r)
    ensures forall y :: y in r <==> y == x || y in s
  {
    if s == [] then [x]
    else if x == s[0] then s
    else if Lt(x, s[0]) then
      assert forall k :: 0 <= k < |s| ==> Lt(x, s[k]) by {
        forall k | 0 < k < |s| ensures Lt(x, s[k]) { LtTransitive(x, s[0], s[k]); }
      }
      [x] + s
    else
      LtTotal(x, s[0]);
      var t := Insert(x, s[1..]);
      assert forall k :: 0 <= k < |t| ==> Lt(s[0], t[k]) by {
        forall k | 0 <= k < |t| ensures Lt(s[0], t[k]) {
          if t[k] != x { assert t[k] in s[1..]; }
        }
      }
      [s[0]] + t
  }

  /** `sorted(set(xs))`: the distinct elements of `xs` in increasing order. */
  function SortedSet(xs: seq<string>): (r: seq<string>)
    ensures StrictlySorted(r)
    ensures forall y :: y in r <==> y in xs
  {
    if xs == [] then [] else Insert(xs[0], SortedSet(xs[1..]))
  }

  /** The head of a strictly sorted list is below every other element. */
  lemma HeadIsLeast(a: seq<string>)
    requires StrictlySorted(a) && a != []
    ensures forall y :: y in a && y != a[0] ==> Lt(a[0], y)
  {
  }

  /** A strictly sorted list is determined by its elements, so SortedSet
      depends only on the set of `xs`. */
  lemma {:induction false} SortedUnique(a: seq<string>, b: seq<string>)
    requires StrictlySorted(a) && StrictlySorted(b)
    requires forall y :: y in a <==> y in b
    ensures a == b
  {
    assert a != [] ==> a[0] in b;
    assert b != [] ==> b[0] in a;
    if a != [] && b != [] {
      HeadIsLeast(a);
      HeadIsLeast(b);
      if a[0] != b[0] {
        LtAsymmetric(a[0], b[0]);
      }
      assert a[0] == b[0];
      forall y ensures y in a[1..] <==> y in b[1..] {
        if y in a[1..] {
          var k :| 1 <= k < |a| && a[k] == y;
          assert Lt(a[0], y);
          LtIrreflexive(y);
          assert y in b;
          var m :| 0 <= m < |b| && b[m] == y;
          assert b[1..][m - 1] == y;
        }
        if y in b[1..] {
          var k :| 1 <= k < |b| && b[k] == y;
          assert Lt(b[0], y);
          LtIrreflexive(y);
          assert y in a;
          var m :| 0 <= m < |a| && a[m] == y;
          assert a[1..][m - 1] == y;
        }
      }
      SortedUnique(a[1..], b[1..]);
      assert a == [a[0]] + a[1..] && b == [b[0]] + b[1..];
    }
  }
}

/** Order-preserving selection from a list (what a filtering list
    comprehension keeps). */
module Subseq {

  /** `a` is `b` with some elements left out, the rest in order. */
  predicate Subsequence<T(==)>(a: seq<T>, b: seq<T>)
    decreases |b|
  {
    if a == [] then true
    else if b == [] then false
    else if a[0] == b[0] then Subsequence(a[1..], b[1..])
    else Subsequence(a, b[1..])
  }

  lemma {:induction false} SubsequenceRefl<T>(a: seq<T>)
    ensures Subsequence(a, a)
  {
    if a != [] { SubsequenceRefl(a[1..]); }
  }

  /** Elements of a subsequence come from the list. */
  lemma {:induction false} SubsequenceMembers<T>(a: seq<T>, b: seq<T>)
    requires Subsequence(a, b)
    ensures forall x :: x in a ==> x in b
    ensures |a| <= |b|
    decreases |b|
  {
    if a != [] && b != [] {
      if a[0] == b[0] {
        SubsequenceMembers(a[1..], b[1..]);
        assert a == [a[0]] + a[1..];
      } else {
        SubsequenceMembers(a, b[1..]);
      }
    }
  }

  /** `[x for x in b if p(x)]`. */
  function Filter<T(!new)>(p: T -> bool, b: seq<T>): (r: seq<T>)
    ensures Subsequence(r, b)
    ensures forall x :: x in r <==> x in b && p(x)
  {
    if b == [] then []
    else
      var t := Filter(p, b[1..]);
      assert b == [b[0]] + b[1..];
      if p(b[0]) then
        assert ([b[0]] + t)[1..] == t;
        [b[0]] + t
      else
        SubsequenceSkip(t, b);
        t
  }

  lemma {:induction false} SubsequenceSkip<T>(t: seq<T>, b: seq<T>)
    requires b != [] && Subsequence(t, b[1..])
    ensures Subsequence(t, b)
    decreases |b|, 0
  {
    if t != [] && t[0] == b[0] {
      SubsequenceTail(t, b[1..]);
    }
  }

  lemma {:induction false} SubsequenceTail<T>(t: seq<T>, b: seq<T>)
    requires t != [] && Subsequence(t, b)
    ensures Subsequence(t[1..], b)
    decreases |b|, 1
  {
    if b != [] {
      if t[0] == b[0] {
        SubsequenceSkip(t[1..], b);
      } else {
        SubsequenceTail(t, b[1..]);
        SubsequenceSkip(t[1..], b);
      }
    }
  }

  /** Filtering with a predicate that holds everywhere keeps everything. */
  lemma {:induction false} FilterAll<T(!new)>(p: T -> bool, b: seq<T>)
    requires forall k :: 0 <= k < |b| ==> p(b[k])
    ensures Filter(p, b) == b
  {
    if b != [] {
      FilterAll(p, b[1..]);
      assert b == [b[0]] + b[1..];
    }
  }
}
