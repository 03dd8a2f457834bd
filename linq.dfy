/** The two LINQ operators the queries are built from, over a finite
    sequence, evaluated eagerly. */
module Linq {
  import opened Wrappers

  /** `r` is `s` read at the positions `idx`, which increase strictly. */
  ghost predicate SelectedAt<T>(r: seq<T>, s: seq<T>, idx: seq<int>) {
    && |idx| == |r|
    && (forall k :: 0 <= k < |idx| ==> 0 <= idx[k] < |s| && r[k] == s[idx[k]])
    && (forall k, l :: 0 <= k < l < |idx| ==> idx[k] < idx[l])
  }

  /** `r` consists of exactly the elements of `s` that satisfy `keep`, each
      taken once and in the order of `s`. */
  ghost predicate IsOrderedSelection<T>(r: seq<T>, s: seq<T>, keep: T -> bool) {
    exists idx :: SelectedAt(r, s, idx) && forall i :: 0 <= i < |s| ==> (i in idx <==> keep(s[i]))
  }

  /** `s.Where(keep)`. Enumerating the source from the front, the output
      after the first `|s| - 1` elements is the output for that prefix,
      followed by the last element when it is kept. */
  function Where<T>(s: seq<T>, keep: T -> bool): (r: seq<T>)
    ensures |r| <= |s|
    ensures forall x :: x in r ==> x in s && keep(x)
    ensures forall i :: 0 <= i < |s| && keep(s[i]) ==> s[i] in r
  {
    if s == [] then []
    else
      var prefix, last := s[..|s| - 1], s[|s| - 1];
      assert forall i :: 0 <= i < |prefix| ==> prefix[i] == s[i];
      Where(prefix, keep) + (if keep(last) then [last] else [])
  }

  /** The positions of `s` whose element satisfies `keep`, in increasing order. */
  function KeptPositions<T>(s: seq<T>, keep: T -> bool): seq<int> {
    if s == [] then []
    else KeptPositions(s[..|s| - 1], keep) + (if keep(s[|s| - 1]) then [|s| - 1] else [])
  }

  /** `KeptPositions` lists exactly the positions whose element is kept. */
  lemma {:induction false} KeptPositionsMembers<T>(s: seq<T>, keep: T -> bool)
    ensures forall x :: x in KeptPositions(s, keep) ==> 0 <= x < |s|
    ensures forall i :: 0 <= i < |s| ==> (i in KeptPositions(s, keep) <==> keep(s[i]))
  {
    if s != [] {
      var n := |s| - 1;
      var prefix := s[..n];
      KeptPositionsMembers(prefix, keep);
      assert forall i :: 0 <= i < n ==> prefix[i] == s[i];
    }
  }

  /** Reading one more source element extends a selection by that element
      or by nothing. */
  lemma SelectedAtSnoc<T>(r: seq<T>, s: seq<T>, idx: seq<int>, x: T, taken: bool)
    requires SelectedAt(r, s, idx)
    ensures SelectedAt(r + (if taken then [x] else []), s + [x], idx + (if taken then [|s|] else []))
  {
  }

  lemma {:induction false} WhereAtKeptPositions<T>(s: seq<T>, keep: T -> bool)
    ensures SelectedAt(Where(s, keep), s, KeptPositions(s, keep))
  {
    if s != [] {
      var n := |s| - 1;
      var prefix := s[..n];
      WhereAtKeptPositions(prefix, keep);
      SelectedAtSnoc(Where(prefix, keep), prefix, KeptPositions(prefix, keep), s[n], keep(s[n]));
      assert prefix + [s[n]] == s;
    }
  }

  /** `Where` keeps exactly the elements that satisfy the predicate, in
      source order. */
  lemma WhereIsOrderedSelection<T>(s: seq<T>, keep: T -> bool)
    ensures IsOrderedSelection(Where(s, keep), s, keep)
  {
    WhereAtKeptPositions(s, keep);
    KeptPositionsMembers(s, keep);
  }

  /** An ordered selection is determined by the source and the predicate, so
      `IsOrderedSelection` specifies `Where` completely. */
  lemma OrderedSelectionIsUnique<T>(r1: seq<T>, r2: seq<T>, s: seq<T>, keep: T -> bool)
    requires IsOrderedSelection(r1, s, keep) && IsOrderedSelection(r2, s, keep)
    ensures r1 == r2
  {
    var idx1 :| SelectedAt(r1, s, idx1) && forall i :: 0 <= i < |s| ==> (i in idx1 <==> keep(s[i]));
    var idx2 :| SelectedAt(r2, s, idx2) && forall i :: 0 <= i < |s| ==> (i in idx2 <==> keep(s[i]));
    IncreasingSameElements(idx1, idx2);
  }

  ghost predicate Increasing(idx: seq<int>) {
    forall k, l :: 0 <= k < l < |idx| ==> idx[k] < idx[l]
  }

  /** Two strictly increasing sequences with the same elements are equal. */
  lemma {:induction false} IncreasingSameElements(a: seq<int>, b: seq<int>)
    requires Increasing(a) && Increasing(b)
    requires forall x :: x in a <==> x in b
    ensures a == b
    decreases |a|
  {
    if a != [] {
      assert a[0] in a;
    }
    if b != [] {
      assert b[0] in b;
    }
    if a != [] && b != [] {
      assert a[0] == b[0] by {
        assert a[0] in a && b[0] in b;
        assert b[0] in a && a[0] in b;
      }
      forall x
        ensures x in a[1..] <==> x in b[1..]
      {
        if x in a[1..] {
          assert x in b && x != b[0];
        }
        if x in b[1..] {
          assert x in a && x != a[0];
        }
      }
      IncreasingSameElements(a[1..], b[1..]);
    }
  }

  /** A selection made at the single position `j` is that one element. */
  lemma SelectedOnlyAt<T>(r: seq<T>, s: seq<T>, idx: seq<int>, j: int)
    requires SelectedAt(r, s, idx) && 0 <= j < |s|
    requires forall i :: 0 <= i < |s| ==> (i in idx <==> i == j)
    ensures r == [s[j]]
  {
    assert j in idx;
    var first, last := idx[0], idx[|idx| - 1];
    assert first in idx && last in idx;
    assert first == j == last;
  }

  /** The first element of a non-empty sequence occurs in it. */
  lemma FirstIsElement(idx: seq<int>)
    ensures |idx| > 0 ==> idx[0] in idx
  {
  }

  /** A selection made at no position is empty. */
  lemma SelectedNowhere<T>(r: seq<T>, s: seq<T>, idx: seq<int>)
    requires SelectedAt(r, s, idx)
    requires forall i :: 0 <= i < |s| ==> i !in idx
    ensures r == []
  {
    FirstIsElement(idx);
  }

  /** `s.FirstOrDefault(matches)`: the first element that satisfies `matches`, or
      absent when none does. */
  function FirstOrDefault<T>(s: seq<T>, matches: T -> bool): (r: Option<T>)
    ensures r.None? <==> forall i :: 0 <= i < |s| ==> !matches(s[i])
    ensures r.Some? ==> exists i :: 0 <= i < |s| && s[i] == r.value && matches(s[i]) && forall j :: 0 <= j < i ==> !matches(s[j])
  {
    if s == [] then None
    else if matches(s[0]) then Some(s[0])
    else
      var r := FirstOrDefault(s[1..], matches);
      assert forall i :: 0 < i < |s| ==> s[i] == s[1..][i - 1];
      r
  }
}
