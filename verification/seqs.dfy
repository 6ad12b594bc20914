/** Facts about sequences and their multisets that the batch loops rely on. */
module Seqs {

  /** `[f(x) for x in xs]`. */
  function MapSeq<A, B>(f: A -> B, xs: seq<A>): (ys: seq<B>)
    ensures |ys| == |xs|
    ensures forall i :: 0 <= i < |xs| ==> ys[i] == f(xs[i])
  {
    if xs == [] then [] else MapSeq(f, xs[..|xs| - 1]) + [f(xs[|xs| - 1])]
  }

  lemma {:induction false} MapAppend<A, B>(f: A -> B, a: seq<A>, b: seq<A>)
    ensures MapSeq(f, a + b) == MapSeq(f, a) + MapSeq(f, b)
    decreases |b|
  {
    if b == [] {
      assert a + b == a;
    } else {
      var n := |b| - 1;
      assert (a + b)[..|a + b| - 1] == a + b[..n];
      MapAppend(f, a, b[..n]);
    }
  }

  lemma MapSnoc<A, B>(f: A -> B, xs: seq<A>)
    requires xs != []
    ensures MapSeq(f, xs) == MapSeq(f, xs[..|xs| - 1]) + [f(xs[|xs| - 1])]
  {
  }

  lemma MultisetRemove<T>(b: seq<T>, j: nat)
    requires j < |b|
    ensures multiset(b[..j] + b[j + 1..]) == multiset(b) - multiset{b[j]}
  {
    assert b == b[..j] + [b[j]] + b[j + 1..];
  }

  lemma MapRemove<A, B>(f: A -> B, v: seq<A>, j: nat)
    requires j < |v|
    ensures multiset(MapSeq(f, v)) == multiset(MapSeq(f, v[..j] + v[j + 1..])) + multiset{f(v[j])}
  {
    SplitAt(v, j);
    MapSplit(f, v[..j], v[j], v[j + 1..]);
  }

  lemma SplitAt<T>(v: seq<T>, j: nat)
    requires j < |v|
    ensures v == v[..j] + ([v[j]] + v[j + 1..])
  {
  }

  lemma MapSplit<A, B>(f: A -> B, a: seq<A>, x: A, c: seq<A>)
    ensures multiset(MapSeq(f, a + ([x] + c))) == multiset(MapSeq(f, a + c)) + multiset{f(x)}
  {
    MapAppend(f, a, [x] + c);
    MapAppend(f, [x], c);
    MapAppend(f, a, c);
    assert MapSeq(f, [x]) == [f(x)];
  }

  /** Mapping a rearranged sequence gives a rearrangement of the mapped one. */
  lemma {:induction false} MapPermutation<A, B>(f: A -> B, a: seq<A>, b: seq<A>)
    requires multiset(a) == multiset(b)
    ensures multiset(MapSeq(f, a)) == multiset(MapSeq(f, b))
    decreases |a|
  {
    if a == [] {
      assert |multiset(b)| == 0;
    } else {
      var n := |a| - 1;
      assert a[n] in multiset(b);
      var j :| 0 <= j < |b| && b[j] == a[n];
      MultisetRemove(a, n);
      MultisetRemove(b, j);
      assert a[..n] + a[n + 1..] == a[..n];
      MapPermutation(f, a[..n], b[..j] + b[j + 1..]);
      MapRemove(f, a, n);
      MapRemove(f, b, j);
    }
  }

  /** `[x for x in xs if keep(x)]`. */
  function Filter<T(!new)>(keep: T -> bool, xs: seq<T>): (ys: seq<T>)
    ensures |ys| <= |xs|
    ensures forall i :: 0 <= i < |ys| ==> keep(ys[i])
  {
    if xs == [] then []
    else
      var n := |xs| - 1;
      Filter(keep, xs[..n]) + (if keep(xs[n]) then [xs[n]] else [])
  }

  /** Filtering keeps every passing element as often as it occurs, and nothing else. */
  lemma {:induction false} FilterMultiset<T(!new)>(keep: T -> bool, xs: seq<T>)
    ensures forall x :: multiset(Filter(keep, xs))[x] == if keep(x) then multiset(xs)[x] else 0
  {
    if xs != [] {
      var n := |xs| - 1;
      assert xs == xs[..n] + [xs[n]];
      FilterMultiset(keep, xs[..n]);
    }
  }

  lemma {:induction false} FilterAppend<T(!new)>(keep: T -> bool, a: seq<T>, b: seq<T>)
    ensures Filter(keep, a + b) == Filter(keep, a) + Filter(keep, b)
    decreases |b|
  {
    if b == [] {
      assert a + b == a;
    } else {
      var n := |b| - 1;
      var ab := a + b;
      assert ab[..|ab| - 1] == a + b[..n];
      assert ab[|ab| - 1] == b[n];
      FilterAppend(keep, a, b[..n]);
      assert Filter(keep, ab) == Filter(keep, a + b[..n]) + (if keep(b[n]) then [b[n]] else []);
    }
  }

  /** Filtering keeps a sequence whose elements all pass. */
  lemma {:induction false} FilterAll<T(!new)>(keep: T -> bool, xs: seq<T>)
    requires forall i :: 0 <= i < |xs| ==> keep(xs[i])
    ensures Filter(keep, xs) == xs
  {
    if xs != [] {
      FilterAll(keep, xs[..|xs| - 1]);
    }
  }

  /** Filtering empties a sequence none of whose elements pass. */
  lemma {:induction false} FilterNone<T(!new)>(keep: T -> bool, xs: seq<T>)
    requires forall i :: 0 <= i < |xs| ==> !keep(xs[i])
    ensures Filter(keep, xs) == []
  {
    if xs != [] {
      FilterNone(keep, xs[..|xs| - 1]);
    }
  }

  /** Filtering drops a prefix none of whose elements pass. */
  lemma FilterDropPrefix<T(!new)>(keep: T -> bool, pre: seq<T>, rest: seq<T>)
    requires forall i :: 0 <= i < |pre| ==> !keep(pre[i])
    ensures Filter(keep, pre + rest) == Filter(keep, rest)
  {
    FilterAppend(keep, pre, rest);
    FilterNone(keep, pre);
  }

  lemma FilterDropFront<T(!new)>(keep: T -> bool, xs: seq<T>, k: nat)
    requires k <= |xs| && forall i :: 0 <= i < k ==> !keep(xs[i])
    ensures Filter(keep, xs) == Filter(keep, xs[k..])
  {
    var pre, rest := xs[..k], xs[k..];
    TakeDrop(xs, k);
    assert forall i :: 0 <= i < |pre| ==> !keep(pre[i]);
    FilterDropPrefix(keep, pre, rest);
  }

  lemma TakeDrop<T>(xs: seq<T>, k: nat)
    requires k <= |xs|
    ensures xs == xs[..k] + xs[k..]
  {
  }

  /** Filtering a sequence with one more element in front. */
  lemma FilterCons<T(!new)>(keep: T -> bool, x: T, rest: seq<T>)
    ensures Filter(keep, [x] + rest) == (if keep(x) then [x] else []) + Filter(keep, rest)
  {
    FilterAppend(keep, [x], rest);
    FilterSingle(keep, x);
  }

  lemma FilterSingle<T(!new)>(keep: T -> bool, x: T)
    ensures Filter(keep, [x]) == if keep(x) then [x] else []
  {
    var xs := [x];
    assert xs[..0] == [];
    assert xs[0] == x;
  }

  /** Filtering drops a prefix and a suffix none of whose elements pass. */
  lemma FilterInfix<T(!new)>(keep: T -> bool, pre: seq<T>, mid: seq<T>, post: seq<T>)
    requires forall i :: 0 <= i < |pre| ==> !keep(pre[i])
    requires forall i :: 0 <= i < |post| ==> !keep(post[i])
    ensures Filter(keep, pre + mid + post) == Filter(keep, mid)
  {
    FilterAppend(keep, pre + mid, post);
    FilterAppend(keep, pre, mid);
    FilterNone(keep, pre);
    FilterNone(keep, post);
    assert [] + Filter(keep, mid) + [] == Filter(keep, mid);
  }

  /** `a` is `b` with some elements left out, the others in the same order. */
  ghost predicate IsSubsequence<T>(a: seq<T>, b: seq<T>)
    decreases |b|
  {
    if a == [] then true
    else if b == [] then false
    else if a[|a| - 1] == b[|b| - 1] then IsSubsequence(a[..|a| - 1], b[..|b| - 1])
    else IsSubsequence(a, b[..|b| - 1])
  }

  lemma {:induction false} FilterIsSubsequence<T(!new)>(keep: T -> bool, xs: seq<T>)
    ensures IsSubsequence(Filter(keep, xs), xs)
  {
    if xs != [] {
      var n := |xs| - 1;
      FilterIsSubsequence(keep, xs[..n]);
      var ys := Filter(keep, xs[..n]);
      if keep(xs[n]) {
        assert (ys + [xs[n]])[..|ys|] == ys;
      } else {
        assert Filter(keep, xs) == ys;
        SubsequenceOfPrefix(ys, xs, n);
      }
    }
  }

  /** A subsequence of a prefix is a subsequence of the whole. */
  lemma {:induction false} SubsequenceOfPrefix<T>(a: seq<T>, b: seq<T>, n: nat)
    requires n <= |b| && IsSubsequence(a, b[..n])
    ensures IsSubsequence(a, b)
    decreases |b|, 0
  {
    if n == |b| {
      assert b[..n] == b;
    } else {
      var m := |b| - 1;
      assert b[..m][..n] == b[..n];
      SubsequenceOfPrefix(a, b[..m], n);
      if a != [] {
        if a[|a| - 1] == b[m] {
          SubsequenceDropLast(a, b[..m]);
          assert IsSubsequence(a[..|a| - 1], b[..m]);
        } else {
          assert IsSubsequence(a, b[..m]);
        }
      }
    }
  }

  lemma {:induction false} SubsequenceDropLast<T>(a: seq<T>, b: seq<T>)
    requires a != [] && IsSubsequence(a, b)
    ensures IsSubsequence(a[..|a| - 1], b)
    decreases |b|, 1
  {
    var n := |a| - 1;
    if b != [] {
      var m := |b| - 1;
      if a[n] == b[m] {
        SubsequenceOfPrefix(a[..n], b, m);
      } else {
        SubsequenceDropLast(a, b[..m]);
        SubsequenceOfPrefix(a[..n], b, m);
      }
    }
  }
}
