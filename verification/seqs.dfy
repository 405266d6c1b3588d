/** Generic facts about sequences used by the allocator and the filters. */
module Seqs {

  ghost predicate Distinct<T>(xs: seq<T>) {
    forall i, j | 0 <= i < j < |xs| :: xs[i] != xs[j]
  }

  /**
   `sub` is `full` with some elements deleted (order kept). Matching from the
   right end is exact for this relation: if the last elements agree they can
   always be paired.
   */
  ghost predicate IsSubsequence<T>(sub: seq<T>, full: seq<T>)
    decreases |full|
  {
    if sub == [] then true
    else if full == [] then false
    else if sub[|sub| - 1] == full[|full| - 1] then IsSubsequence(sub[..|sub| - 1], full[..|full| - 1])
    else IsSubsequence(sub, full[..|full| - 1])
  }

  /** Dropping the last kept element keeps a subsequence. */
  lemma {:induction false} SubsequenceDropLast<T>(sub: seq<T>, full: seq<T>)
    requires sub != [] && IsSubsequence(sub, full)
    ensures IsSubsequence(sub[..|sub| - 1], full)
    decreases |full|, 1
  {
    var init := sub[..|sub| - 1];
    if init != [] {
      var f := full[..|full| - 1];
      if sub[|sub| - 1] == full[|full| - 1] {
        SubsequenceExtend(init, f, full[|full| - 1]);
        assert f + [full[|full| - 1]] == full;
      } else {
        SubsequenceDropLast(sub, f);
        SubsequenceExtend(init, f, full[|full| - 1]);
        assert f + [full[|full| - 1]] == full;
      }
    }
  }

  /** A subsequence of `full` is a subsequence of any extension of `full`. */
  lemma {:induction false} SubsequenceExtend<T>(sub: seq<T>, full: seq<T>, x: T)
    requires IsSubsequence(sub, full)
    ensures IsSubsequence(sub, full + [x])
    decreases |full|, 2
  {
    var ext := full + [x];
    assert ext[..|ext| - 1] == full;
    if sub != [] && sub[|sub| - 1] == x {
      SubsequenceDropLast(sub, full);
    }
  }

  /** Taking the same new element on both sides keeps a subsequence. */
  lemma SubsequenceTake<T>(sub: seq<T>, full: seq<T>, x: T)
    requires IsSubsequence(sub, full)
    ensures IsSubsequence(sub + [x], full + [x])
  {
    assert (sub + [x])[..|sub|] == sub;
    assert (full + [x])[..|full|] == full;
  }

  /** The elements of `xs` satisfying `keep`, in order. */
  function Filter<T>(xs: seq<T>, keep: T -> bool): seq<T>
    decreases |xs|
  {
    if xs == [] then [] else (if keep(xs[0]) then [xs[0]] else []) + Filter(xs[1..], keep)
  }

  /** Filtering keeps exactly the satisfying elements, in order. */
  lemma {:induction false} FilterFacts<T>(xs: seq<T>, keep: T -> bool)
    ensures forall i | 0 <= i < |Filter(xs, keep)| :: keep(Filter(xs, keep)[i]) && Filter(xs, keep)[i] in xs
    ensures forall x | x in xs && keep(x) :: x in Filter(xs, keep)
    ensures |Filter(xs, keep)| <= |xs|
    decreases |xs|
  {
    if xs != [] {
      FilterFacts(xs[1..], keep);
      var rest := Filter(xs[1..], keep);
      forall x | x in xs && keep(x)
        ensures x in Filter(xs, keep)
      {
        if x != xs[0] {
          var k :| 0 <= k < |xs| && xs[k] == x;
          assert xs[1..][k - 1] == x;
        }
      }
    }
  }

  /** Filtering is idempotent. */
  lemma {:induction false} FilterIdempotent<T>(xs: seq<T>, keep: T -> bool)
    ensures Filter(Filter(xs, keep), keep) == Filter(xs, keep)
    decreases |xs|
  {
    if xs != [] {
      FilterIdempotent(xs[1..], keep);
      var rest := Filter(xs[1..], keep);
      if keep(xs[0]) {
        var ys := [xs[0]] + rest;
        assert ys[0] == xs[0] && ys[1..] == rest;
      } else {
        assert [] + rest == rest;
      }
    }
  }

  /** Filtering deletes elements and keeps the order of the rest. */
  lemma {:induction false} FilterIsSubsequence<T>(xs: seq<T>, keep: T -> bool)
    ensures IsSubsequence(Filter(xs, keep), xs)
    decreases |xs|
  {
    if xs != [] {
      FilterIsSubsequence(xs[1..], keep);
      PrependSubsequence(Filter(xs[1..], keep), xs[1..], xs[0], keep(xs[0]));
      assert [xs[0]] + xs[1..] == xs;
    }
  }

  /** Putting one element in front of `full`, and optionally of `sub`, keeps a subsequence. */
  lemma {:induction false} PrependSubsequence<T>(sub: seq<T>, full: seq<T>, x: T, both: bool)
    requires IsSubsequence(sub, full)
    ensures IsSubsequence((if both then [x] else []) + sub, [x] + full)
    decreases |full|
  {
    var s := (if both then [x] else []) + sub;
    var f := [x] + full;
    if full == [] {
      assert sub == [];
      if both {
        assert s == [x] && f == [x];
        assert s[..0] == [] && f[..0] == [];
      }
    } else {
      var fi := full[..|full| - 1];
      assert f[..|f| - 1] == [x] + fi;
      if sub == [] {
        if both {
          PrependSubsequence(sub, fi, x, both);
        }
      } else {
        assert s[|s| - 1] == sub[|sub| - 1];
        if sub[|sub| - 1] == full[|full| - 1] {
          PrependSubsequence(sub[..|sub| - 1], fi, x, both);
          assert s[..|s| - 1] == (if both then [x] else []) + sub[..|sub| - 1];
        } else {
          PrependSubsequence(sub, fi, x, both);
        }
      }
    }
  }

  /** Filtering by a narrower predicate after a wider one is filtering by the narrower one. */
  lemma {:induction false} FilterNarrow<T>(xs: seq<T>, wide: T -> bool, narrow: T -> bool)
    requires forall x :: narrow(x) ==> wide(x)
    ensures Filter(Filter(xs, wide), narrow) == Filter(xs, narrow)
    decreases |xs|
  {
    if xs != [] {
      FilterNarrow(xs[1..], wide, narrow);
      var rest := Filter(xs[1..], wide);
      if wide(xs[0]) {
        var ys := [xs[0]] + rest;
        assert ys[0] == xs[0] && ys[1..] == rest;
      } else {
        assert [] + rest == rest;
      }
    }
  }

  /** Filtering keeps every copy of a satisfying element and no copy of any other. */
  lemma {:induction false} FilterCount<T>(xs: seq<T>, keep: T -> bool, x: T)
    ensures multiset(Filter(xs, keep))[x] == (if keep(x) then multiset(xs)[x] else 0)
    decreases |xs|
  {
    if xs != [] {
      FilterCount(xs[1..], keep, x);
      assert xs == [xs[0]] + xs[1..];
    }
  }

  /** The elements of the parts, one part after the other. */
  function Flatten<T>(parts: seq<seq<T>>): seq<T>
    decreases |parts|
  {
    if parts == [] then [] else parts[0] + Flatten(parts[1..])
  }

  /** Python's `xs[:n]`. */
  function Take<T>(xs: seq<T>, n: nat): (r: seq<T>)
    ensures r <= xs
    ensures |r| == if n <= |xs| then n else |xs|
  {
    if n <= |xs| then xs[..n] else xs
  }

  lemma TakeCount<T>(xs: seq<T>, n: nat, x: T)
    ensures multiset(Take(xs, n))[x] <= multiset(xs)[x]
  {
    var r := Take(xs, n);
    assert xs == r + xs[|r|..];
  }

  /** A sequence without repeats holds each element at most once. */
  lemma {:induction false} DistinctCount<T>(xs: seq<T>, x: T)
    requires Distinct(xs)
    ensures multiset(xs)[x] <= 1
    decreases |xs|
  {
    if xs != [] {
      assert xs == [xs[0]] + xs[1..];
      DistinctCount(xs[1..], x);
      if xs[0] == x {
        assert x !in xs[1..] by {
          forall k | 0 <= k < |xs[1..]| ensures xs[1..][k] != x {
            assert xs[1..][k] == xs[k + 1];
          }
        }
      }
    }
  }
}
