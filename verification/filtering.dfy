/** A stable, single-pass filter over a sequence, together with an
    independent description of what it selects: the strictly increasing
    list of positions whose element satisfies the predicate. */
module Filtering {

  /** Keeps the elements of `s` that satisfy `keep`, in their original order. */
  function Filter<T>(s: seq<T>, keep: T -> bool): (r: seq<T>)
    ensures |r| <= |s|
    ensures forall k :: 0 <= k < |r| ==> r[k] in s && keep(r[k])
    ensures forall j :: 0 <= j < |s| && keep(s[j]) ==> s[j] in r
    decreases |s|
  {
    if |s| == 0 then []
    else (if keep(s[0]) then [s[0]] else []) + Filter(s[1..], keep)
  }

  /** The positions `j..|s|-1` of `s` whose element satisfies `keep`, in
      increasing order. */
  function KeptFrom<T>(s: seq<T>, keep: T -> bool, j: nat): (idx: seq<nat>)
    requires j <= |s|
    ensures forall k :: 0 <= k < |idx| ==> j <= idx[k] < |s| && keep(s[idx[k]])
    ensures forall k, l :: 0 <= k < l < |idx| ==> idx[k] < idx[l]
    ensures forall i :: j <= i < |s| && keep(s[i]) ==> i in idx
    decreases |s| - j
  {
    if j == |s| then []
    else (if keep(s[j]) then [j] else []) + KeptFrom(s, keep, j + 1)
  }

  /** Every position of `s` whose element satisfies `keep`, in increasing order. */
  function KeptIndices<T>(s: seq<T>, keep: T -> bool): (idx: seq<nat>)
  {
    KeptFrom(s, keep, 0)
  }

  /** `r` lists the elements of `s` at the positions `idx`, in that order. */
  ghost predicate Picks<T>(s: seq<T>, idx: seq<nat>, r: seq<T>)
  {
    |r| == |idx| && forall k :: 0 <= k < |r| ==> idx[k] < |s| && r[k] == s[idx[k]]
  }

  /** `r` lists, in order, exactly the elements of `s` at the positions
      that satisfy `keep`: an order-preserving subsequence that misses no
      qualifying element. */
  ghost predicate StableSelection<T>(s: seq<T>, keep: T -> bool, r: seq<T>)
  {
    Picks(s, KeptIndices(s, keep), r)
  }

  /** Picking one more position in front picks its element in front. */
  lemma PicksCons<T>(s: seq<T>, j: nat, idx: seq<nat>, r: seq<T>)
    requires j < |s| && Picks(s, idx, r)
    ensures Picks(s, [j] + idx, [s[j]] + r)
  {
    var idx', r' := [j] + idx, [s[j]] + r;
    forall k | 0 < k < |r'|
      ensures idx'[k] < |s| && r'[k] == s[idx'[k]]
    {
      assert idx'[k] == idx[k - 1] && r'[k] == r[k - 1];
    }
  }

  lemma {:induction false} FilterSelectsFrom<T>(s: seq<T>, keep: T -> bool, j: nat)
    requires j <= |s|
    ensures Picks(s, KeptFrom(s, keep, j), Filter(s[j..], keep))
    decreases |s| - j
  {
    if j < |s| {
      FilterSelectsFrom(s, keep, j + 1);
      var t := s[j..];
      assert t[0] == s[j] && t[1..] == s[j + 1..];
      var rest := Filter(s[j + 1..], keep);
      var restIdx := KeptFrom(s, keep, j + 1);
      if keep(s[j]) {
        assert Filter(t, keep) == [s[j]] + rest;
        assert KeptFrom(s, keep, j) == [j] + restIdx;
        PicksCons(s, j, restIdx, rest);
      } else {
        assert Filter(t, keep) == rest;
        assert KeptFrom(s, keep, j) == restIdx;
      }
    }
  }

  /** The filter selects exactly the elements at the kept positions, in
      order. */
  lemma FilterIsStableSelection<T>(s: seq<T>, keep: T -> bool)
    ensures StableSelection(s, keep, Filter(s, keep))
  {
    FilterSelectsFrom(s, keep, 0);
    assert s[0..] == s;
  }

  /** Filtering a concatenation filters each part separately. */
  lemma {:induction false} FilterConcat<T>(a: seq<T>, b: seq<T>, keep: T -> bool)
    ensures Filter(a + b, keep) == Filter(a, keep) + Filter(b, keep)
    decreases |a|
  {
    if |a| > 0 {
      assert (a + b)[0] == a[0];
      assert (a + b)[1..] == a[1..] + b;
      FilterConcat(a[1..], b, keep);
    } else {
      assert a + b == b;
    }
  }

  /** Filtering a sequence split around one element: the filtered left part,
      then the element if it is kept, then the filtered right part. */
  lemma FilterAround<T>(a: seq<T>, y: T, b: seq<T>, keep: T -> bool)
    ensures Filter(a + ([y] + b), keep) == Filter(a, keep) + (if keep(y) then [y] else []) + Filter(b, keep)
  {
    FilterConcat(a, [y] + b, keep);
    FilterConcat([y], b, keep);
    assert [y][1..] == [];
  }

  /** Filtering twice with the same predicate changes nothing further. */
  lemma {:induction false} FilterIdempotent<T>(s: seq<T>, keep: T -> bool)
    ensures Filter(Filter(s, keep), keep) == Filter(s, keep)
    decreases |s|
  {
    if |s| > 0 {
      FilterIdempotent(s[1..], keep);
      var head := if keep(s[0]) then [s[0]] else [];
      FilterConcat(head, Filter(s[1..], keep), keep);
      if keep(s[0]) {
        assert head[1..] == [];
      }
    }
  }
}
