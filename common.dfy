/** Small value types and sequence functions shared by the backend and the
    frontend models: an Option type, duplicate-freedom, "distinct values in
    order of first appearance" (a JavaScript `Set` built from an array),
    left-to-right sums (`reduce`) and filters. */
module Common {

  datatype Option<+T> = None | Some(value: T) {
    /** The value, or `default` when absent (Python's `x or default`). */
    function GetOr(default: T): T {
      if Some? then value else default
    }
  }

  /** No element occurs twice in `s`. */
  predicate NoDup<T(==)>(s: seq<T>) {
    forall i, j :: 0 <= i < j < |s| ==> s[i] != s[j]
  }

  /** Index of the first occurrence of `x` in `s`. */
  function FirstIndex<T(==)>(s: seq<T>, x: T): (k: nat)
    requires x in s
    ensures k < |s| && s[k] == x && x !in s[..k]
  {
    if s[0] == x then 0 else 1 + FirstIndex(s[1..], x)
  }

  /** The distinct elements of `s`, each once, in order of first
      appearance: what inserting `s` into a JavaScript `Set` one element
      after the other and reading it back yields. */
  function Dedup<T(==)>(s: seq<T>): (r: seq<T>)
    ensures NoDup(r)
    ensures forall x :: x in r ==> x in s
    ensures forall x :: x in s ==> x in r
    ensures |r| <= |s|
  {
    if s == [] then []
    else
      var p := Dedup(s[..|s| - 1]);
      assert s == s[..|s| - 1] + [s[|s| - 1]];
      if s[|s| - 1] in p then p else p + [s[|s| - 1]]
  }

  /** Taking a prefix does not move the first occurrence of an element of
      that prefix. */
  lemma {:induction false} FirstIndexPrefix<T>(s: seq<T>, n: nat, x: T)
    requires n <= |s| && x in s[..n]
    ensures FirstIndex(s[..n], x) == FirstIndex(s, x)
  {
    if s[0] != x {
      assert s[1..][..n - 1] == s[..n][1..];
      FirstIndexPrefix(s[1..], n - 1, x);
    }
  }

  /** `Dedup` keeps order of first appearance: its elements' first
      positions in `s` strictly increase. */
  lemma {:induction false} DedupFirstAppearance<T>(s: seq<T>, i: nat, j: nat)
    requires i < j < |Dedup(s)|
    ensures FirstIndex(s, Dedup(s)[i]) < FirstIndex(s, Dedup(s)[j])
  {
    var n := |s| - 1;
    var p := Dedup(s[..n]);
    var x := Dedup(s)[i];
    var y := Dedup(s)[j];
    assert x in s[..n] by {
      assert x in p;
    }
    FirstIndexPrefix(s, n, x);
    if s[n] in p || j < |p| {
      assert Dedup(s)[j] == p[j];
      assert y in s[..n] by {
        assert y in p;
      }
      FirstIndexPrefix(s, n, y);
      DedupFirstAppearance(s[..n], i, j);
    } else {
      assert y == s[n] && y !in s[..n];
      assert FirstIndex(s, y) == n by {
        assert s[..n] + [y] == s;
      }
    }
  }

  /** Left-to-right sum, as `reduce((sum, x) => sum + x, 0)`. */
  function Sum(s: seq<int>): int {
    if s == [] then 0 else Sum(s[..|s| - 1]) + s[|s| - 1]
  }

  /** The elements of `s` that satisfy `p`, in order (`Array.filter`). */
  function Filter<T>(s: seq<T>, p: T -> bool): (r: seq<T>)
    ensures |r| <= |s|
    ensures forall x :: x in r ==> x in s && p(x)
    ensures forall x :: x in s && p(x) ==> x in r
  {
    if s == [] then []
    else
      var q := Filter(s[..|s| - 1], p);
      assert s == s[..|s| - 1] + [s[|s| - 1]];
      if p(s[|s| - 1]) then q + [s[|s| - 1]] else q
  }

  /** Filtering distributes over concatenation. */
  lemma {:induction false} FilterAppend<T>(a: seq<T>, b: seq<T>, p: T -> bool)
    ensures Filter(a + b, p) == Filter(a, p) + Filter(b, p)
  {
    if b != [] {
      var n := |b| - 1;
      assert (a + b)[..|a + b| - 1] == a + b[..n];
      FilterAppend(a, b[..n], p);
    } else {
      assert a + b == a;
    }
  }

  /** Sums distribute over concatenation. */
  lemma {:induction false} SumAppend(a: seq<int>, b: seq<int>)
    ensures Sum(a + b) == Sum(a) + Sum(b)
  {
    if b != [] {
      var n := |b| - 1;
      assert (a + b)[..|a + b| - 1] == a + b[..n];
      SumAppend(a, b[..n]);
    } else {
      assert a + b == a;
    }
  }

  /** A filter that all elements pass changes nothing. */
  lemma {:induction false} FilterAll<T>(s: seq<T>, p: T -> bool)
    requires forall x :: x in s ==> p(x)
    ensures Filter(s, p) == s
  {
    if s != [] {
      var n := |s| - 1;
      assert forall x :: x in s[..n] ==> x in s;
      FilterAll(s[..n], p);
      assert s[..n] + [s[n]] == s;
    }
  }

  /** Filtering one element further along a sequence. */
  lemma FilterSnoc<T>(s: seq<T>, n: nat, p: T -> bool)
    requires n < |s|
    ensures Filter(s[..n + 1], p) == Filter(s[..n], p) + (if p(s[n]) then [s[n]] else [])
  {
    assert s[..n + 1][..n] == s[..n];
  }

  /** Filtering keeps the relative order of the elements it keeps. */
  lemma {:induction false} FilterOrder<T>(s: seq<T>, p: T -> bool, i: nat, j: nat)
    requires i < j < |Filter(s, p)|
    ensures exists a, b :: 0 <= a < b < |s| && s[a] == Filter(s, p)[i] && s[b] == Filter(s, p)[j]
  {
    var n := |s| - 1;
    var q := Filter(s[..n], p);
    if j < |q| {
      assert Filter(s, p)[i] == q[i] && Filter(s, p)[j] == q[j];
      FilterOrder(s[..n], p, i, j);
      var a, b :| 0 <= a < b < n && s[..n][a] == q[i] && s[..n][b] == q[j];
      assert s[a] == Filter(s, p)[i] && s[b] == Filter(s, p)[j];
    } else {
      assert Filter(s, p)[j] == s[n];
      assert Filter(s, p)[i] == q[i] && q[i] in s[..n];
      var a :| 0 <= a < n && s[..n][a] == q[i];
      assert s[a] == Filter(s, p)[i];
    }
  }

  /** The elements of `s`. */
  function Elems<T>(s: seq<T>): set<T> {
    set x | x in s
  }

  /** Walking a strictly increasing sequence meets each element for the
      first time. */
  lemma ElemsStep(s: seq<int>, k: nat)
    requires k < |s|
    requires forall a, b :: 0 <= a < b < |s| ==> s[a] < s[b]
    ensures s[k] !in Elems(s[..k])
    ensures Elems(s[..k + 1]) == Elems(s[..k]) + {s[k]}
  {
    assert s[..k + 1] == s[..k] + [s[k]];
  }
}
