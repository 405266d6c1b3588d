/**
 Python's `sorted(xs, key=key, reverse=True)` (and `list.sort(...)` with the
 same arguments): a stable sort by descending key. Elements with equal keys
 keep their original relative order, which is what makes the allocator's
 phase choice and the enforcer's term choice deterministic.
 */
module StableSort {
  import opened Seqs

  /** Keys never increase from left to right. */
  ghost predicate NonIncreasing<T>(xs: seq<T>, key: T -> real) {
    forall i, j | 0 <= i < j < |xs| :: key(xs[i]) >= key(xs[j])
  }

  /** Places `x` in front of the first element whose key is not greater than its own. */
  function Insert<T>(x: T, ys: seq<T>, key: T -> real): seq<T>
    decreases |ys|
  {
    if ys == [] || key(x) >= key(ys[0]) then [x] + ys
    else [ys[0]] + Insert(x, ys[1..], key)
  }

  /** Insertion adds exactly `x`. */
  lemma {:induction false} InsertPermutes<T>(x: T, ys: seq<T>, key: T -> real)
    ensures multiset(Insert(x, ys, key)) == multiset(ys) + multiset{x}
    ensures |Insert(x, ys, key)| == |ys| + 1
    decreases |ys|
  {
    if ys != [] && key(x) < key(ys[0]) {
      InsertPermutes(x, ys[1..], key);
      assert ys == [ys[0]] + ys[1..];
    }
  }

  /** An upper bound on every key survives insertion of an element below it. */
  lemma {:induction false} InsertBounded<T>(x: T, ys: seq<T>, key: T -> real, bound: real)
    requires key(x) <= bound
    requires forall i | 0 <= i < |ys| :: key(ys[i]) <= bound
    ensures forall i | 0 <= i < |Insert(x, ys, key)| :: key(Insert(x, ys, key)[i]) <= bound
    decreases |ys|
  {
    if ys != [] && key(x) < key(ys[0]) {
      InsertBounded(x, ys[1..], key, bound);
    }
  }

  /** Insertion keeps a sorted list sorted. */
  lemma {:induction false} InsertSorted<T>(x: T, ys: seq<T>, key: T -> real)
    requires NonIncreasing(ys, key)
    ensures NonIncreasing(Insert(x, ys, key), key)
    decreases |ys|
  {
    if ys != [] && key(x) < key(ys[0]) {
      var rest := Insert(x, ys[1..], key);
      InsertSorted(x, ys[1..], key);
      InsertBounded(x, ys[1..], key, key(ys[0]));
      var r := [ys[0]] + rest;
      assert r == Insert(x, ys, key);
      forall i, j | 0 <= i < j < |r|
        ensures key(r[i]) >= key(r[j])
      {
        assert r[j] == rest[j - 1];
        if i > 0 {
          assert r[i] == rest[i - 1];
        }
      }
    }
  }

  /** The stable descending sort, by insertion from the back. */
  function SortDesc<T>(xs: seq<T>, key: T -> real): (r: seq<T>)
    ensures multiset(r) == multiset(xs)
    ensures |r| == |xs|
    ensures NonIncreasing(r, key)
    decreases |xs|
  {
    if xs == [] then []
    else
      assert xs == [xs[0]] + xs[1..];
      InsertPermutes(xs[0], SortDesc(xs[1..], key), key);
      InsertSorted(xs[0], SortDesc(xs[1..], key), key);
      Insert(xs[0], SortDesc(xs[1..], key), key)
  }

  /** The first position (in input order) holding a maximal key. */
  function FirstMaxIndex<T>(xs: seq<T>, key: T -> real): (i: nat)
    requires xs != []
    ensures i < |xs|
    ensures forall k | 0 <= k < |xs| :: key(xs[k]) <= key(xs[i])
    ensures forall k | 0 <= k < i :: key(xs[k]) < key(xs[i])
    decreases |xs|
  {
    if |xs| == 1 then 0
    else
      var j := FirstMaxIndex(xs[1..], key);
      assert forall k | 1 <= k < |xs| :: xs[k] == xs[1..][k - 1];
      if key(xs[0]) >= key(xs[1..][j]) then 0 else j + 1
  }

  /** Stability at the head: the sort leads with the first maximal element. */
  lemma {:induction false} SortHeadIsFirstMax<T>(xs: seq<T>, key: T -> real)
    requires xs != []
    ensures SortDesc(xs, key)[0] == xs[FirstMaxIndex(xs, key)]
    decreases |xs|
  {
    if |xs| > 1 {
      SortHeadIsFirstMax(xs[1..], key);
    }
  }

  /** Inserting behind a block of strictly greater keys leaves that block in front. */
  lemma {:induction false} InsertBehind<T>(x: T, front: seq<T>, rest: seq<T>, key: T -> real)
    requires forall i | 0 <= i < |front| :: key(front[i]) > key(x)
    ensures Insert(x, front + rest, key) == front + Insert(x, rest, key)
    decreases |front|
  {
    if front == [] {
      assert front + rest == rest;
    } else {
      var fr := front + rest;
      assert fr[0] == front[0];
      assert Insert(x, fr, key) == [fr[0]] + Insert(x, fr[1..], key);
      assert fr[1..] == front[1..] + rest;
      InsertBehind(x, front[1..], rest, key);
      assert front == [front[0]] + front[1..];
    }
  }

  /**
   When the key takes the falling values `v0 > v1 > v2` on the levels 0, 1
   and 2, the stable descending sort lists the level-0 elements, then the
   level-1 ones, then the level-2 ones, each group in input order.
   */
  lemma {:induction false} SortDescByLevels<T>(xs: seq<T>, key: T -> real, level: T -> nat, v0: real, v1: real, v2: real,
                                               t0: T -> bool, t1: T -> bool, t2: T -> bool)
    requires v0 > v1 > v2
    requires forall x :: level(x) < 3 ==> key(x) == if level(x) == 0 then v0 else if level(x) == 1 then v1 else v2
    requires forall x :: t0(x) == (level(x) == 0) && t1(x) == (level(x) == 1) && t2(x) == (level(x) == 2)
    requires forall i | 0 <= i < |xs| :: level(xs[i]) < 3
    ensures SortDesc(xs, key) == Filter(xs, t0) + Filter(xs, t1) + Filter(xs, t2)
    decreases |xs|
  {
    if xs != [] {
      var x := xs[0];
      var rest := xs[1..];
      SortDescByLevels(rest, key, level, v0, v1, v2, t0, t1, t2);
      var f0, f1, f2 := Filter(rest, t0), Filter(rest, t1), Filter(rest, t2);
      BlockKeys(rest, key, level, v0, v1, v2, t0, t1, t2);
      InsertAtLevel(x, f0, f1, f2, key, v0, v1, v2);
      assert SortDesc(xs, key) == Insert(x, f0 + f1 + f2, key);
      if level(x) == 0 {
        assert Filter(xs, t0) == [x] + f0;
        assert Filter(xs, t1) == f1 && Filter(xs, t2) == f2;
      } else if level(x) == 1 {
        assert Filter(xs, t1) == [x] + f1;
        assert Filter(xs, t0) == f0 && Filter(xs, t2) == f2;
        ConcatAssoc(f0, [x], f1);
      } else {
        assert Filter(xs, t2) == [x] + f2;
        assert Filter(xs, t0) == f0 && Filter(xs, t1) == f1;
        ConcatAssoc(f0 + f1, [x], f2);
      }
    }
  }

  /** The elements of each level block carry that level's key. */
  lemma BlockKeys<T>(xs: seq<T>, key: T -> real, level: T -> nat, v0: real, v1: real, v2: real,
                     t0: T -> bool, t1: T -> bool, t2: T -> bool)
    requires forall x :: level(x) < 3 ==> key(x) == if level(x) == 0 then v0 else if level(x) == 1 then v1 else v2
    requires forall x :: t0(x) == (level(x) == 0) && t1(x) == (level(x) == 1) && t2(x) == (level(x) == 2)
    ensures forall i | 0 <= i < |Filter(xs, t0)| :: key(Filter(xs, t0)[i]) == v0
    ensures forall i | 0 <= i < |Filter(xs, t1)| :: key(Filter(xs, t1)[i]) == v1
    ensures forall i | 0 <= i < |Filter(xs, t2)| :: key(Filter(xs, t2)[i]) == v2
  {
    FilterFacts(xs, t0);
    FilterFacts(xs, t1);
    FilterFacts(xs, t2);
  }

  /** Where insertion puts an element among three blocks of keys `v0 > v1 > v2`. */
  lemma InsertAtLevel<T>(x: T, f0: seq<T>, f1: seq<T>, f2: seq<T>, key: T -> real, v0: real, v1: real, v2: real)
    requires v0 > v1 > v2
    requires forall i | 0 <= i < |f0| :: key(f0[i]) == v0
    requires forall i | 0 <= i < |f1| :: key(f1[i]) == v1
    requires forall i | 0 <= i < |f2| :: key(f2[i]) == v2
    ensures key(x) == v0 ==> Insert(x, f0 + f1 + f2, key) == [x] + f0 + f1 + f2
    ensures key(x) == v1 ==> Insert(x, f0 + f1 + f2, key) == f0 + [x] + f1 + f2
    ensures key(x) == v2 ==> Insert(x, f0 + f1 + f2, key) == f0 + f1 + [x] + f2
  {
    var ys := f0 + f1 + f2;
    if ys != [] {
      if f0 != [] {
        assert ys[0] == f0[0];
      } else if f1 != [] {
        assert ys[0] == f1[0];
      } else {
        assert ys[0] == f2[0];
      }
    }
    if f1 + f2 != [] {
      if f1 != [] {
        assert (f1 + f2)[0] == f1[0];
      } else {
        assert (f1 + f2)[0] == f2[0];
      }
    }
    if key(x) == v0 {
      InsertFront(x, ys, key);
    } else if key(x) == v1 {
      InsertMiddle(x, f0, f1 + f2, key);
      ConcatAssoc(f0, f1, f2);
      ConcatAssoc(f0, [x], f1);
      ConcatAssoc(f0 + [x], f1, f2);
      ConcatAssoc(f0, [x], f1 + f2);
    } else if key(x) == v2 {
      InsertMiddle(x, f0 + f1, f2, key);
      assert ys == (f0 + f1) + f2;
    }
  }

  lemma InsertMiddle<T>(x: T, front: seq<T>, rest: seq<T>, key: T -> real)
    requires forall i | 0 <= i < |front| :: key(front[i]) > key(x)
    requires rest != [] ==> key(x) >= key(rest[0])
    ensures Insert(x, front + rest, key) == front + [x] + rest
  {
    InsertBehind(x, front, rest, key);
    InsertFront(x, rest, key);
  }

  lemma ConcatAssoc<T>(a: seq<T>, b: seq<T>, c: seq<T>)
    ensures a + b + c == a + (b + c)
  {
  }

  /** An element whose key is at least the head's goes in front. */
  lemma InsertFront<T>(x: T, ys: seq<T>, key: T -> real)
    requires ys != [] ==> key(x) >= key(ys[0])
    ensures Insert(x, ys, key) == [x] + ys
  {
  }
}
