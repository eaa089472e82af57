/** Sequence helpers shared by the table models: first match, filter and reversal. */
module Seqs {
  import opened Wrappers

  /** Index of the first element satisfying `p`, as a `findFirst` over a table in row order. */
  function FirstIndex<T>(s: seq<T>, p: T -> bool): (r: Option<nat>)
    ensures r.Some? ==> r.value < |s| && p(s[r.value])
    ensures r.Some? ==> forall j :: 0 <= j < r.value ==> !p(s[j])
    ensures r.None? ==> forall j :: 0 <= j < |s| ==> !p(s[j])
  {
    if s == [] then None
    else if p(s[0]) then Some(0)
    else match FirstIndex(s[1..], p)
      case None => None
      case Some(i) => Some(i + 1)
  }

  /** The elements satisfying `p`, in their original order. */
  function Filter<T>(s: seq<T>, p: T -> bool): (r: seq<T>)
    ensures |r| <= |s|
    ensures forall i :: 0 <= i < |r| ==> r[i] in s && p(r[i])
    ensures forall i :: 0 <= i < |s| && p(s[i]) ==> s[i] in r
  {
    if s == [] then []
    else Filter(s[..|s| - 1], p) + (if p(s[|s| - 1]) then [s[|s| - 1]] else [])
  }

  lemma {:induction false} FilterAppend<T>(a: seq<T>, b: seq<T>, p: T -> bool)
    ensures Filter(a + b, p) == Filter(a, p) + Filter(b, p)
  {
    if b == [] {
      assert a + b == a;
    } else {
      assert (a + b)[..|a + b| - 1] == a + b[..|b| - 1];
      FilterAppend(a, b[..|b| - 1], p);
    }
  }

  lemma {:induction false} FilterAll<T>(s: seq<T>, p: T -> bool)
    requires forall i :: 0 <= i < |s| ==> p(s[i])
    ensures Filter(s, p) == s
  {
    if s != [] {
      FilterAll(s[..|s| - 1], p);
    }
  }

  lemma {:induction false} FilterNone<T>(s: seq<T>, p: T -> bool)
    requires forall i :: 0 <= i < |s| ==> !p(s[i])
    ensures Filter(s, p) == []
  {
    if s != [] {
      FilterNone(s[..|s| - 1], p);
    }
  }

  function Reverse<T>(s: seq<T>): (r: seq<T>)
    ensures |r| == |s|
    ensures forall i :: 0 <= i < |s| ==> r[i] == s[|s| - 1 - i]
    ensures forall i :: 0 <= i < |s| ==> s[i] in r
  {
    if s == [] then [] else [s[|s| - 1]] + Reverse(s[..|s| - 1])
  }

  /** Reversing a filtered sequence puts later rows first: the rows behind two of its elements
      stand in the opposite order. */
  lemma ReversedFilterPair<T>(s: seq<T>, p: T -> bool, i: nat, j: nat) returns (x: nat, y: nat)
    requires i < j < |Reverse(Filter(s, p))|
    ensures y < x < |s| && s[x] == Reverse(Filter(s, p))[i] && s[y] == Reverse(Filter(s, p))[j]
  {
    var f := Filter(s, p);
    ReverseAt(f, i);
    ReverseAt(f, j);
    y, x := FilterOrderAt(s, p, |f| - 1 - j, |f| - 1 - i);
  }

  lemma ReverseAt<T>(s: seq<T>, i: nat)
    requires i < |s|
    ensures Reverse(s)[i] == s[|s| - 1 - i]
  {
  }

  /** Filtering keeps order: the rows behind two kept elements stand in the same order. */
  lemma {:induction false} FilterOrderAt<T>(s: seq<T>, p: T -> bool, i: nat, j: nat) returns (x: nat, y: nat)
    requires i < j < |Filter(s, p)|
    ensures x < y < |s| && s[x] == Filter(s, p)[i] && s[y] == Filter(s, p)[j]
  {
    var init, last := s[..|s| - 1], s[|s| - 1];
    var f := Filter(s, p);
    var g := Filter(init, p);
    assert f == g + (if p(last) then [last] else []);
    if j < |g| {
      x, y := FilterOrderAt(init, p, i, j);
      assert s[x] == init[x] && s[y] == init[y];
    } else {
      assert f[j] == last && f[i] == g[i];
      assert g[i] in init;
      x :| x < |init| && init[x] == g[i];
      y := |s| - 1;
    }
  }
}
