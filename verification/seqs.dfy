/** Sequence utilities shared by the search filters and the feed paginator:
    `Array.prototype.filter`, the order-preserving subsequence relation it
    establishes, and concatenation of a sequence of slices. */
module Seqs {

  /** `a` can be obtained from `b` by deleting elements, keeping the order. */
  predicate IsSubseq<T(==)>(a: seq<T>, b: seq<T>)
    decreases |b|
  {
    |a| == 0 || (|b| > 0 && ((a[0] == b[0] && IsSubseq(a[1..], b[1..])) || IsSubseq(a, b[1..])))
  }

  lemma {:induction false} IsSubseqRefl<T>(a: seq<T>)
    ensures IsSubseq(a, a)
    decreases |a|
  {
    if |a| > 0 {
      IsSubseqRefl(a[1..]);
    }
  }

  /** A suffix is a subsequence of the whole. */
  lemma {:induction false} IsSubseqSuffix<T>(a: seq<T>, b: seq<T>)
    ensures IsSubseq(b, a + b)
    decreases |a|
  {
    if |a| == 0 {
      assert a + b == b;
      IsSubseqRefl(b);
    } else {
      assert (a + b)[1..] == a[1..] + b;
      IsSubseqSuffix(a[1..], b);
    }
  }

  /** Elements of a subsequence come from the sequence. */
  lemma {:induction false} IsSubseqMembers<T>(a: seq<T>, b: seq<T>)
    requires IsSubseq(a, b)
    ensures forall x :: x in a ==> x in b
    decreases |b|
  {
    if |a| > 0 {
      if a[0] == b[0] && IsSubseq(a[1..], b[1..]) {
        IsSubseqMembers(a[1..], b[1..]);
        assert forall x :: x in a ==> x == a[0] || x in a[1..];
      } else {
        IsSubseqMembers(a, b[1..]);
      }
    }
  }

  /** `s.filter(keep)`: the elements of `s` that satisfy `keep`, in order,
      each kept as often as it occurs in `s`. */
  function Filter<T(==)>(s: seq<T>, keep: T -> bool): (r: seq<T>)
    ensures |r| <= |s|
    ensures IsSubseq(r, s)
    ensures forall i :: 0 <= i < |r| ==> keep(r[i])
    ensures forall i :: 0 <= i < |s| && keep(s[i]) ==> s[i] in r
    ensures forall x :: x in r ==> x in s
  {
    if |s| == 0 then []
    else
      var rest := Filter(s[1..], keep);
      assert forall i :: 1 <= i < |s| ==> s[i] == s[1..][i - 1];
      if keep(s[0]) then
        assert ([s[0]] + rest)[1..] == rest;
        [s[0]] + rest
      else rest
  }

  /** The filter keeps each kept value as often as it occurs in `s` and
      drops every other value entirely. */
  lemma {:induction false} FilterMultiset<T>(s: seq<T>, keep: T -> bool)
    ensures forall x :: multiset(Filter(s, keep))[x] == (if keep(x) then multiset(s)[x] else 0)
    decreases |s|
  {
    if |s| > 0 {
      FilterMultiset(s[1..], keep);
      forall x ensures multiset(Filter(s, keep))[x] == (if keep(x) then multiset(s)[x] else 0) {
        FilterMultisetStep(s, keep, x);
      }
    }
  }

  lemma FilterMultisetStep<T>(s: seq<T>, keep: T -> bool, x: T)
    requires |s| > 0
    requires multiset(Filter(s[1..], keep))[x] == (if keep(x) then multiset(s[1..])[x] else 0)
    ensures multiset(Filter(s, keep))[x] == (if keep(x) then multiset(s)[x] else 0)
  {
    var h, t := s[0], s[1..];
    FilterCons(s, keep);
    assert s == [h] + t;
    assert multiset(s)[x] == multiset([h])[x] + multiset(t)[x];
  }

  /** Filtering distributes over concatenation. */
  lemma {:induction false} FilterConcat<T>(a: seq<T>, b: seq<T>, keep: T -> bool)
    ensures Filter(a + b, keep) == Filter(a, keep) + Filter(b, keep)
    decreases |a|
  {
    if |a| == 0 {
      assert a + b == b;
    } else {
      assert (a + b)[1..] == a[1..] + b;
      FilterConcat(a[1..], b, keep);
    }
  }

  /** Nothing survives a filter that rejects every element. */
  lemma FilterNone<T>(s: seq<T>, keep: T -> bool)
    requires forall i :: 0 <= i < |s| ==> !keep(s[i])
    ensures Filter(s, keep) == []
  {
  }

  /** A filter that accepts every element returns the sequence unchanged. */
  lemma {:induction false} FilterAll<T>(s: seq<T>, keep: T -> bool)
    requires forall i :: 0 <= i < |s| ==> keep(s[i])
    ensures Filter(s, keep) == s
    decreases |s|
  {
    if |s| > 0 {
      assert forall i :: 0 <= i < |s| - 1 ==> s[1..][i] == s[i + 1];
      FilterAll(s[1..], keep);
    }
  }

  /** A filter that accepts exactly the positions `lo .. hi - 1` returns that
      slice. */
  lemma {:induction false} FilterSlice<T>(s: seq<T>, keep: T -> bool, lo: nat, hi: nat)
    requires lo <= hi <= |s|
    requires forall i :: 0 <= i < |s| ==> (keep(s[i]) <==> lo <= i < hi)
    ensures Filter(s, keep) == s[lo..hi]
    decreases |s|
  {
    if |s| > 0 {
      var lo', hi' := if lo > 0 then lo - 1 else 0, if hi > 0 then hi - 1 else 0;
      var t := s[1..];
      assert forall i :: 0 <= i < |t| ==> (keep(t[i]) <==> lo' <= i < hi') by {
        assert forall i :: 0 <= i < |t| ==> t[i] == s[i + 1];
      }
      FilterSlice(t, keep, lo', hi');
      FilterSliceStep(s, keep, lo, hi);
    }
  }

  lemma FilterSliceStep<T>(s: seq<T>, keep: T -> bool, lo: nat, hi: nat)
    requires lo <= hi <= |s| && |s| > 0
    requires keep(s[0]) <==> lo == 0 < hi
    requires Filter(s[1..], keep) == s[1..][if lo > 0 then lo - 1 else 0..if hi > 0 then hi - 1 else 0]
    ensures Filter(s, keep) == s[lo..hi]
  {
    FilterCons(s, keep);
    SliceCons(s, lo, hi);
  }

  /** A slice of a non-empty sequence, seen from its tail. */
  lemma SliceCons<T>(s: seq<T>, lo: nat, hi: nat)
    requires lo <= hi <= |s| && |s| > 0
    ensures lo == 0 < hi ==> s[lo..hi] == [s[0]] + s[1..][0..hi - 1]
    ensures lo > 0 ==> s[lo..hi] == s[1..][lo - 1..hi - 1]
    ensures lo == hi ==> s[lo..hi] == []
  {
    if lo == 0 < hi {
      assert forall i :: 0 <= i < hi ==> s[lo..hi][i] == ([s[0]] + s[1..][0..hi - 1])[i];
    }
    if lo > 0 {
      assert forall i :: 0 <= i < hi - lo ==> s[lo..hi][i] == s[1..][lo - 1..hi - 1][i];
    }
  }

  /** One step of the filter. */
  lemma FilterCons<T>(s: seq<T>, keep: T -> bool)
    requires |s| > 0
    ensures Filter(s, keep) == if keep(s[0]) then [s[0]] + Filter(s[1..], keep) else Filter(s[1..], keep)
  {
  }

  /** Concatenation of a sequence of sequences. */
  function Flatten<T>(ss: seq<seq<T>>): seq<T> {
    if |ss| == 0 then [] else ss[0] + Flatten(ss[1..])
  }
}
