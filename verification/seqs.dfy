/** Generic sequence operations shared by the table builders: filtering, mapping,
    flattening nested lists and counting. */
module Seqs {

  /** Apply `f` to every element, keeping the order. */
  function Map<A, B>(f: A -> B, s: seq<A>): (r: seq<B>)
    ensures |r| == |s|
    ensures forall i :: 0 <= i < |s| ==> r[i] == f(s[i])
  {
    seq(|s|, i requires 0 <= i < |s| => f(s[i]))
  }

  /** Mapping distributes over putting an element in front. */
  lemma MapCons<A, B>(f: A -> B, x: A, s: seq<A>)
    ensures Map(f, [x] + s) == [f(x)] + Map(f, s)
  {
    assert forall i :: 0 <= i < |s| + 1 ==> Map(f, [x] + s)[i] == ([f(x)] + Map(f, s))[i];
  }

  /** The elements of `s` satisfying `p`, in their original order. */
  function Filter<T>(p: T -> bool, s: seq<T>): (r: seq<T>)
    ensures |r| <= |s|
    ensures forall i :: 0 <= i < |r| ==> r[i] in s && p(r[i])
    ensures forall i :: 0 <= i < |s| && p(s[i]) ==> s[i] in r
  {
    if |s| == 0 then []
    else (if p(s[0]) then [s[0]] else []) + Filter(p, s[1..])
  }

  /** Number of elements of `s` satisfying `p`. */
  function CountIf<T>(p: T -> bool, s: seq<T>): (n: nat)
    ensures n <= |s|
  {
    if |s| == 0 then 0
    else (if p(s[0]) then 1 else 0) + CountIf(p, s[1..])
  }

  /** Filtering keeps exactly as many elements as satisfy `p`. */
  lemma {:induction false} FilterCount<T>(p: T -> bool, s: seq<T>)
    ensures |Filter(p, s)| == CountIf(p, s)
  {
    if |s| > 0 {
      FilterCount(p, s[1..]);
    }
  }

  /** `a` can be obtained from `b` by deleting elements (order is kept). */
  predicate IsSubsequence<T(==)>(a: seq<T>, b: seq<T>)
    decreases |b|
  {
    if |a| == 0 then true
    else if |b| == 0 then false
    else if a[0] == b[0] then IsSubsequence(a[1..], b[1..])
    else IsSubsequence(a, b[1..])
  }

  /** Dropping a first element of the larger sequence keeps a subsequence. */
  lemma SubsequenceOfTail<T>(a: seq<T>, b: seq<T>)
    requires |b| > 0 && IsSubsequence(a, b[1..])
    ensures IsSubsequence(a, b)
    decreases |b|, 0
  {
    if |a| > 0 && a[0] == b[0] {
      SubsequenceDropFirst(a, b[1..]);
    }
  }

  /** Dropping a first element of the smaller sequence keeps a subsequence. */
  lemma SubsequenceDropFirst<T>(a: seq<T>, c: seq<T>)
    requires |a| > 0 && IsSubsequence(a, c)
    ensures IsSubsequence(a[1..], c)
    decreases |c|, 1
  {
    if a[0] != c[0] {
      SubsequenceDropFirst(a, c[1..]);
      SubsequenceOfTail(a[1..], c);
    } else if |a| > 1 {
      SubsequenceOfTail(a[1..], c);
    }
  }

  /** Mapping keeps a subsequence a subsequence. */
  lemma {:induction false} MapSubsequence<A, B>(f: A -> B, a: seq<A>, b: seq<A>)
    requires IsSubsequence(a, b)
    ensures IsSubsequence(Map(f, a), Map(f, b))
    decreases |b|
  {
    if |a| > 0 {
      assert Map(f, b)[1..] == Map(f, b[1..]);
      if a[0] == b[0] {
        MapSubsequence(f, a[1..], b[1..]);
        assert Map(f, a)[1..] == Map(f, a[1..]);
      } else {
        MapSubsequence(f, a, b[1..]);
        if Map(f, a)[0] == Map(f, b)[0] {
          SubsequenceDropFirst(Map(f, a), Map(f, b)[1..]);
        }
      }
    }
  }

  /** The lists of `ss` joined end to end. */
  function Concat<T>(ss: seq<seq<T>>): seq<T>
  {
    if |ss| == 0 then [] else ss[0] + Concat(ss[1..])
  }

  function Sum(ns: seq<nat>): nat
  {
    if |ns| == 0 then 0 else ns[0] + Sum(ns[1..])
  }

  /** A filtered sequence is a subsequence of the original. */
  lemma {:induction false} FilterIsSubsequence<T>(p: T -> bool, s: seq<T>)
    ensures IsSubsequence(Filter(p, s), s)
  {
    if |s| > 0 {
      FilterIsSubsequence(p, s[1..]);
      if p(s[0]) {
        assert Filter(p, s) == [s[0]] + Filter(p, s[1..]);
      } else {
        assert Filter(p, s) == Filter(p, s[1..]);
      }
    }
  }

  /** Filtering distributes over concatenation. */
  lemma {:induction false} FilterAppend<T>(p: T -> bool, a: seq<T>, b: seq<T>)
    ensures Filter(p, a + b) == Filter(p, a) + Filter(p, b)
  {
    if |a| > 0 {
      assert (a + b)[1..] == a[1..] + b;
      FilterAppend(p, a[1..], b);
    } else {
      assert a + b == b;
    }
  }

  /** Filtering twice is filtering once by the conjunction. */
  lemma {:induction false} FilterFilter<T>(p: T -> bool, q: T -> bool, pq: T -> bool, s: seq<T>)
    requires forall x :: pq(x) == (q(x) && p(x))
    ensures Filter(p, Filter(q, s)) == Filter(pq, s)
  {
    if |s| > 0 {
      FilterFilter(p, q, pq, s[1..]);
      if q(s[0]) {
        assert Filter(q, s) == [s[0]] + Filter(q, s[1..]);
        FilterAppend(p, [s[0]], Filter(q, s[1..]));
        assert [s[0]][1..] == [];
        assert Filter(p, [s[0]]) == (if p(s[0]) then [s[0]] else []);
      } else {
        assert Filter(q, s) == Filter(q, s[1..]);
      }
      assert Filter(pq, s) == (if pq(s[0]) then [s[0]] else []) + Filter(pq, s[1..]);
    }
  }

  /** Filtering after a map is mapping after filtering by the composed test. */
  lemma {:induction false} FilterMap<A, B>(p: B -> bool, f: A -> B, q: A -> bool, s: seq<A>)
    requires forall x :: q(x) == p(f(x))
    ensures Filter(p, Map(f, s)) == Map(f, Filter(q, s))
  {
    if |s| > 0 {
      var ms := Map(f, s);
      FilterMap(p, f, q, s[1..]);
      assert ms[0] == f(s[0]);
      assert ms[1..] == Map(f, s[1..]);
      assert Filter(p, ms) == (if p(ms[0]) then [ms[0]] else []) + Filter(p, ms[1..]);
      var rest := Filter(q, s[1..]);
      if q(s[0]) {
        assert Filter(q, s) == [s[0]] + rest;
        MapCons(f, s[0], rest);
      } else {
        assert Filter(q, s) == rest;
      }
    }
  }

  /** Mapping by `f` and then by `g` is mapping once by their composition `h`. */
  lemma {:induction false} MapMap<A, B, C>(f: A -> B, g: B -> C, h: A -> C, s: seq<A>)
    requires forall x :: h(x) == g(f(x))
    ensures Map(g, Map(f, s)) == Map(h, s)
  {
  }

  lemma {:induction false} ConcatAppend<T>(a: seq<seq<T>>, b: seq<seq<T>>)
    ensures Concat(a + b) == Concat(a) + Concat(b)
  {
    if |a| > 0 {
      assert (a + b)[1..] == a[1..] + b;
      ConcatAppend(a[1..], b);
    } else {
      assert a + b == b;
    }
  }

  /** The length of a concatenation is the sum of the lengths. */
  lemma {:induction false} ConcatLength<T>(ss: seq<seq<T>>, ns: seq<nat>)
    requires |ss| == |ns|
    requires forall i :: 0 <= i < |ss| ==> |ss[i]| == ns[i]
    ensures |Concat(ss)| == Sum(ns)
  {
    if |ss| > 0 {
      ConcatLength(ss[1..], ns[1..]);
    }
  }

  lemma {:induction false} SumAppend(ns: seq<nat>, n: nat)
    ensures Sum(ns + [n]) == Sum(ns) + n
  {
    if |ns| > 0 {
      assert (ns + [n])[1..] == ns[1..] + [n];
      SumAppend(ns[1..], n);
    } else {
      assert ns + [n] == [n];
    }
  }

  /** List `i` sits in the concatenation right after the lists before it. */
  lemma {:induction false} ConcatSlice<T>(ss: seq<seq<T>>, i: nat)
    requires i < |ss|
    ensures |Concat(ss[..i])| + |ss[i]| <= |Concat(ss)|
    ensures Concat(ss)[|Concat(ss[..i])|..|Concat(ss[..i])| + |ss[i]|] == ss[i]
  {
    assert ss == ss[..i] + ([ss[i]] + ss[i + 1..]);
    ConcatAppend(ss[..i], [ss[i]] + ss[i + 1..]);
    ConcatAppend([ss[i]], ss[i + 1..]);
    assert Concat([ss[i]]) == ss[i];
  }

  /** In a flattening of lists with sizes `ns`, list `i` is `g`: it occupies the
      positions from `Sum(ns[..i])` up to `Sum(ns[..i + 1])`. */
  predicate Occupies<T(==)>(flat: seq<T>, ns: seq<nat>, i: nat, g: seq<T>)
    requires i < |ns|
  {
    Sum(ns[..i]) <= Sum(ns[..i + 1]) <= |flat| && flat[Sum(ns[..i])..Sum(ns[..i + 1])] == g
  }

  /** Flattening lists of known sizes `ns`: the total size is their sum, and each
      list keeps its place. */
  lemma {:induction false} FlattenGroups<T>(groups: seq<seq<T>>, ns: seq<nat>)
    requires |groups| == |ns|
    requires forall i :: 0 <= i < |groups| ==> |groups[i]| == ns[i]
    ensures |Concat(groups)| == Sum(ns)
    ensures forall i :: 0 <= i < |groups| ==> Occupies(Concat(groups), ns, i, groups[i])
  {
    ConcatLength(groups, ns);
    forall i | 0 <= i < |groups|
      ensures Occupies(Concat(groups), ns, i, groups[i])
    {
      ConcatLength(groups[..i], ns[..i]);
      assert ns[..i + 1] == ns[..i] + [ns[i]];
      SumAppend(ns[..i], ns[i]);
      ConcatSlice(groups, i);
    }
  }
}
