/** Selecting from sequences. */
module Seqs {

  function Filter<T>(s: seq<T>, keep: T -> bool): (r: seq<T>)
    ensures |r| <= |s|
  {
    if s == [] then []
    else
      var front := Filter(s[..|s| - 1], keep);
      if keep(s[|s| - 1]) then front + [s[|s| - 1]] else front
  }

  lemma FilterSnoc<T>(s: seq<T>, x: T, keep: T -> bool)
    ensures Filter(s + [x], keep) == Filter(s, keep) + (if keep(x) then [x] else [])
  {
  }

  lemma {:induction false} FilterConcat<T>(s: seq<T>, t: seq<T>, keep: T -> bool)
    ensures Filter(s + t, keep) == Filter(s, keep) + Filter(t, keep)
  {
    if t == [] {
      assert s + t == s;
    } else {
      var n := |t| - 1;
      FilterConcat(s, t[..n], keep);
      assert s + t == (s + t[..n]) + [t[n]];
      FilterSnoc(s + t[..n], t[n], keep);
    }
  }

  lemma {:induction false} FilterAll<T>(s: seq<T>, keep: T -> bool)
    requires forall i :: 0 <= i < |s| ==> keep(s[i])
    ensures Filter(s, keep) == s
  {
    if s != [] {
      FilterAll(s[..|s| - 1], keep);
      assert s == s[..|s| - 1] + [s[|s| - 1]];
    }
  }

  lemma {:induction false} FilterNone<T>(s: seq<T>, keep: T -> bool)
    requires forall i :: 0 <= i < |s| ==> !keep(s[i])
    ensures Filter(s, keep) == []
  {
    if s != [] {
      FilterNone(s[..|s| - 1], keep);
    }
  }

  lemma {:induction false} FilterAgree<T>(s: seq<T>, keep: T -> bool, keep': T -> bool)
    requires forall i :: 0 <= i < |s| ==> keep(s[i]) == keep'(s[i])
    ensures Filter(s, keep) == Filter(s, keep')
  {
    if s != [] {
      FilterAgree(s[..|s| - 1], keep, keep');
    }
  }

  lemma {:induction false} FilterTwice<T>(s: seq<T>, keep: T -> bool, keep': T -> bool, both: T -> bool)
    requires forall i :: 0 <= i < |s| ==> both(s[i]) == (keep(s[i]) && keep'(s[i]))
    ensures Filter(Filter(s, keep), keep') == Filter(s, both)
  {
    if s != [] {
      var n := |s| - 1;
      FilterTwice(s[..n], keep, keep', both);
      if keep(s[n]) {
        FilterSnoc(Filter(s[..n], keep), s[n], keep');
      }
    }
  }

  lemma {:induction false} FilterMembers<T>(s: seq<T>, keep: T -> bool)
    ensures forall x :: x in Filter(s, keep) <==> x in s && keep(x)
  {
    if s != [] {
      var n := |s| - 1;
      FilterMembers(s[..n], keep);
      assert forall x :: x in s <==> x in s[..n] || x == s[n];
    }
  }

  /** Nothing kept in the first part, and in the second what another filter keeps. */
  lemma FilterSecond<T>(a: seq<T>, b: seq<T>, keep: T -> bool, keep': T -> bool)
    requires forall i :: 0 <= i < |a| ==> !keep(a[i])
    requires forall i :: 0 <= i < |b| ==> keep(b[i]) == keep'(b[i])
    ensures Filter(a + b, keep) == Filter(b, keep')
  {
    FilterConcat(a, b, keep);
    FilterNone(a, keep);
    FilterAgree(b, keep, keep');
  }

  lemma {:induction false} FilterSplits<T>(s: seq<T>, keep: T -> bool, drop: T -> bool)
    requires forall i :: 0 <= i < |s| ==> keep(s[i]) != drop(s[i])
    ensures |Filter(s, keep)| + |Filter(s, drop)| == |s|
  {
    if s != [] {
      FilterSplits(s[..|s| - 1], keep, drop);
    }
  }

  lemma SplitAt<T>(s: seq<T>, i: nat)
    requires i < |s|
    ensures s == s[..i] + [s[i]] + s[i + 1..]
  {
  }

  /** All but one element are kept. */
  lemma FilterOut<T>(s: seq<T>, x: T, t: seq<T>, keep: T -> bool)
    requires !keep(x) && (forall i :: 0 <= i < |s| ==> keep(s[i])) && (forall i :: 0 <= i < |t| ==> keep(t[i]))
    ensures Filter(s + [x] + t, keep) == s + t
  {
    FilterConcat(s + [x], t, keep);
    FilterSnoc(s, x, keep);
    FilterAll(s, keep);
    FilterAll(t, keep);
  }

  lemma FilterUpTo<T>(s: seq<T>, n: nat, keep: T -> bool)
    requires n < |s|
    ensures Filter(s[..n + 1], keep) == Filter(s[..n], keep) + (if keep(s[n]) then [s[n]] else [])
  {
    assert s[..n + 1][..n] == s[..n];
  }

  /** Nothing kept in `s[k..c]`, everything kept after it. */
  lemma {:induction false} FilterTail<T>(s: seq<T>, k: nat, c: nat, keep: T -> bool)
    requires k <= c <= |s|
    requires forall i :: k <= i < c ==> !keep(s[i])
    requires forall i :: c <= i < |s| ==> keep(s[i])
    ensures Filter(s, keep) == Filter(s[..k], keep) + s[c..]
  {
    if k == |s| {
      assert s[..k] == s;
    } else {
      var n := |s| - 1;
      var front := s[..n];
      FilterTail(front, k, if c < n then c else n, keep);
      assert front[..k] == s[..k];
      if c <= n {
        assert s[c..] == front[c..] + [s[n]];
      }
    }
  }
}
