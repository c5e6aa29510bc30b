/** Kotlin collection operations (filter, indexOfFirst, find, takeLast, dropLast)
    over Dafny sequences. */
module Seqs {
  import opened Wrappers

  /** `sub` is obtained from `s` by deleting elements, keeping the order. */
  predicate Subseq<T(==)>(sub: seq<T>, s: seq<T>)
    decreases |s|
  {
    sub == [] || (s != [] && if sub[0] == s[0] then Subseq(sub[1..], s[1..]) else Subseq(sub, s[1..]))
  }

  lemma {:induction false} SubseqPrepend<T>(sub: seq<T>, x: T, s: seq<T>)
    requires Subseq(sub, s)
    ensures Subseq(sub, [x] + s)
    decreases |s|, 1
  {
    var xs := [x] + s;
    assert xs[1..] == s;
    if sub != [] && sub[0] == x {
      // greedy matching takes x; what is left of sub still fits into s
      SubseqDropFirst(sub, s);
    }
  }

  lemma {:induction false} SubseqDropFirst<T>(sub: seq<T>, s: seq<T>)
    requires sub != [] && Subseq(sub, s)
    ensures Subseq(sub[1..], s)
    decreases |s|, 0
  {
    if sub[0] == s[0] {
      SubseqPrepend(sub[1..], s[0], s[1..]);
      assert [s[0]] + s[1..] == s;
    } else {
      SubseqDropFirst(sub, s[1..]);
      SubseqPrepend(sub[1..], s[0], s[1..]);
      assert [s[0]] + s[1..] == s;
    }
  }

  /** Kotlin's `filter`: the elements satisfying `keep`, in their original order. */
  function Filter<T(==)>(s: seq<T>, keep: T -> bool): (r: seq<T>)
    ensures |r| <= |s|
  {
    if s == [] then []
    else if keep(s[0]) then [s[0]] + Filter(s[1..], keep)
    else Filter(s[1..], keep)
  }

  /** The filter holds exactly the elements of `s` satisfying `keep`. */
  lemma {:induction false} FilterMembers<T>(s: seq<T>, keep: T -> bool)
    ensures forall k :: 0 <= k < |Filter(s, keep)| ==> Filter(s, keep)[k] in s && keep(Filter(s, keep)[k])
    ensures forall k :: 0 <= k < |s| && keep(s[k]) ==> s[k] in Filter(s, keep)
    decreases |s|
  {
    if s != [] {
      FilterMembers(s[1..], keep);
      var rest := Filter(s[1..], keep);
      if keep(s[0]) {
        assert ([s[0]] + rest)[1..] == rest;
      }
      forall k | 0 <= k < |s| && keep(s[k]) ensures s[k] in Filter(s, keep) {
        if k > 0 {
          assert s[k] == s[1..][k - 1];
        }
      }
    }
  }

  /** The filter is a subsequence of the original. */
  lemma {:induction false} FilterSubseq<T>(s: seq<T>, keep: T -> bool)
    ensures Subseq(Filter(s, keep), s)
    decreases |s|
  {
    if s != [] {
      FilterSubseq(s[1..], keep);
      var rest := Filter(s[1..], keep);
      if keep(s[0]) {
        assert ([s[0]] + rest)[1..] == rest;
      } else {
        SubseqPrepend(rest, s[0], s[1..]);
        assert [s[0]] + s[1..] == s;
      }
    }
  }

  /** Filtering a sequence extended by one element extends the filtered sequence by
      that element exactly when it is kept. */
  lemma {:induction false} FilterAppend<T>(s: seq<T>, x: T, keep: T -> bool)
    ensures Filter(s + [x], keep) == Filter(s, keep) + (if keep(x) then [x] else [])
    decreases |s|
  {
    if s != [] {
      assert (s + [x])[0] == s[0] && (s + [x])[1..] == s[1..] + [x];
      FilterAppend(s[1..], x, keep);
    } else {
      assert [x][1..] == [];
    }
  }

  /** The filter of a non-empty sequence, split at its last element. */
  lemma FilterLast<T>(s: seq<T>, keep: T -> bool)
    requires s != []
    ensures Filter(s, keep) == Filter(s[..|s| - 1], keep) + (if keep(s[|s| - 1]) then [s[|s| - 1]] else [])
  {
    FilterAppend(s[..|s| - 1], s[|s| - 1], keep);
    assert s[..|s| - 1] + [s[|s| - 1]] == s;
  }

  /** Filtering distributes over concatenation. */
  lemma {:induction false} FilterConcat<T>(s: seq<T>, t: seq<T>, keep: T -> bool)
    ensures Filter(s + t, keep) == Filter(s, keep) + Filter(t, keep)
    decreases |s|
  {
    if s != [] {
      assert (s + t)[0] == s[0] && (s + t)[1..] == s[1..] + t;
      FilterConcat(s[1..], t, keep);
    } else {
      assert s + t == t;
    }
  }

  /** Filtering twice with the same test is filtering once. */
  lemma {:induction false} FilterIdempotent<T>(s: seq<T>, keep: T -> bool)
    ensures Filter(Filter(s, keep), keep) == Filter(s, keep)
    decreases |s|
  {
    if s != [] {
      FilterIdempotent(s[1..], keep);
      if keep(s[0]) {
        var rest := Filter(s[1..], keep);
        assert ([s[0]] + rest)[1..] == rest;
      }
    }
  }

  /** A sequence all of whose elements are kept is its own filter. */
  lemma {:induction false} FilterAllKept<T>(s: seq<T>, keep: T -> bool)
    requires forall k :: 0 <= k < |s| ==> keep(s[k])
    ensures Filter(s, keep) == s
    decreases |s|
  {
    if s != [] {
      FilterAllKept(s[1..], keep);
      assert [s[0]] + s[1..] == s;
    }
  }

  /** A sequence none of whose elements is kept filters to nothing. */
  lemma {:induction false} FilterNoneKept<T>(s: seq<T>, keep: T -> bool)
    requires forall k :: 0 <= k < |s| ==> !keep(s[k])
    ensures Filter(s, keep) == []
    decreases |s|
  {
    if s != [] {
      FilterNoneKept(s[1..], keep);
    }
  }

  /** Kotlin's `mapNotNull`: the defined results of `f`, in order. */
  function FilterMap<A, B>(s: seq<A>, f: A -> Option<B>): (r: seq<B>)
    ensures |r| <= |s|
    decreases |s|
  {
    if s == [] then []
    else
      var init := FilterMap(s[..|s| - 1], f);
      match f(s[|s| - 1])
      case Some(b) => init + [b]
      case None => init
  }

  /** The images of a non-empty sequence, split at its last element. */
  lemma FilterMapLast<A, B>(s: seq<A>, f: A -> Option<B>)
    requires s != []
    ensures FilterMap(s, f) == FilterMap(s[..|s| - 1], f) + (if f(s[|s| - 1]).Some? then [f(s[|s| - 1]).value] else [])
  {
  }

  /** Taking one more element adds its image, if it has one. */
  lemma FilterMapStep<A, B>(s: seq<A>, i: nat, f: A -> Option<B>)
    requires i < |s|
    ensures FilterMap(s[..i + 1], f) == FilterMap(s[..i], f) + (if f(s[i]).Some? then [f(s[i]).value] else [])
  {
    assert s[..i + 1][..i] == s[..i];
  }

  /** Extending a stretch `s[lo..hi]` by one element adds its image, if it has one. */
  lemma FilterMapRangeStep<A, B>(s: seq<A>, lo: nat, hi: nat, f: A -> Option<B>)
    requires lo <= hi < |s|
    ensures FilterMap(s[lo..hi + 1], f) == FilterMap(s[lo..hi], f) + (if f(s[hi]).Some? then [f(s[hi]).value] else [])
  {
    assert s[lo..hi + 1][..hi - lo] == s[lo..hi];
  }

  /** The images of a concatenation are the images of its parts, concatenated. */
  lemma {:induction false} FilterMapConcat<A, B>(s: seq<A>, t: seq<A>, f: A -> Option<B>)
    ensures FilterMap(s + t, f) == FilterMap(s, f) + FilterMap(t, f)
    decreases |t|
  {
    if t == [] {
      assert s + t == s;
    } else {
      var init := t[..|t| - 1];
      FilterMapConcat(s, init, f);
      assert (s + t)[..|s + t| - 1] == s + init;
    }
  }

  /** Every result comes from some element. */
  lemma {:induction false} FilterMapSound<A, B>(s: seq<A>, f: A -> Option<B>)
    ensures forall b :: b in FilterMap(s, f) ==> exists k :: 0 <= k < |s| && f(s[k]) == Some(b)
    decreases |s|
  {
    if s != [] {
      var init := s[..|s| - 1];
      FilterMapSound(init, f);
      forall b | b in FilterMap(s, f)
        ensures exists k :: 0 <= k < |s| && f(s[k]) == Some(b)
      {
        if b in FilterMap(init, f) {
          var k :| 0 <= k < |init| && f(init[k]) == Some(b);
          assert s[k] == init[k];
        } else {
          assert f(s[|s| - 1]) == Some(b);
        }
      }
    }
  }

  /** Every defined result is kept. */
  lemma {:induction false} FilterMapComplete<A, B>(s: seq<A>, f: A -> Option<B>)
    ensures forall k :: 0 <= k < |s| && f(s[k]).Some? ==> f(s[k]).value in FilterMap(s, f)
    decreases |s|
  {
    if s != [] {
      var init := s[..|s| - 1];
      FilterMapComplete(init, f);
      forall k | 0 <= k < |s| && f(s[k]).Some?
        ensures f(s[k]).value in FilterMap(s, f)
      {
        if k < |s| - 1 {
          assert s[k] == init[k];
        }
      }
    }
  }

  /** The images under `f` (with the fixed extra argument `ctx`) of the
      elements from index `i` on, concatenated, up to (and without) the first
      element satisfying `stop`. */
  function ConcatMapUntil<T, C, U>(s: seq<T>, i: nat, stop: T -> bool, f: (T, C) -> seq<U>, ctx: C): seq<U>
    decreases |s| - i
  {
    if i >= |s| || stop(s[i]) then [] else f(s[i], ctx) + ConcatMapUntil(s, i + 1, stop, f, ctx)
  }

  /** One step of `ConcatMapUntil`. */
  lemma ConcatMapStep<T, C, U>(s: seq<T>, i: nat, stop: T -> bool, f: (T, C) -> seq<U>, ctx: C)
    requires i < |s| && !stop(s[i])
    ensures ConcatMapUntil(s, i, stop, f, ctx) == f(s[i], ctx) + ConcatMapUntil(s, i + 1, stop, f, ctx)
    ensures AnyFrom(s, i, stop) == AnyFrom(s, i + 1, stop)
  {
  }

  /** Some element from index `i` on satisfies `p`. */
  predicate AnyFrom<T>(s: seq<T>, i: nat, p: T -> bool)
    decreases |s| - i
  {
    i < |s| && (p(s[i]) || AnyFrom(s, i + 1, p))
  }

  lemma {:induction false} AnyFromIff<T>(s: seq<T>, i: nat, p: T -> bool)
    ensures AnyFrom(s, i, p) <==> exists k :: i <= k < |s| && p(s[k])
    decreases |s| - i
  {
    if i < |s| {
      AnyFromIff(s, i + 1, p);
    }
  }

  /** A suffix is processed the same wherever it starts. */
  lemma {:induction false} ConcatMapShift<T, C, U>(a: seq<T>, b: seq<T>, j: nat, stop: T -> bool, f: (T, C) -> seq<U>, ctx: C)
    ensures ConcatMapUntil(a + b, |a| + j, stop, f, ctx) == ConcatMapUntil(b, j, stop, f, ctx)
    ensures AnyFrom(a + b, |a| + j, stop) == AnyFrom(b, j, stop)
    decreases |b| - j
  {
    if j < |b| {
      assert (a + b)[|a| + j] == b[j];
      ConcatMapShift(a, b, j + 1, stop, f, ctx);
    }
  }

  /** Without a stop element in `a[i..]`, processing `a + b` from `i` is
      processing `a` from `i`, then `b`. */
  lemma {:induction false} ConcatMapConcat<T, C, U>(a: seq<T>, b: seq<T>, i: nat, stop: T -> bool, f: (T, C) -> seq<U>, ctx: C)
    requires i <= |a| && !AnyFrom(a, i, stop)
    ensures ConcatMapUntil(a + b, i, stop, f, ctx) == ConcatMapUntil(a, i, stop, f, ctx) + ConcatMapUntil(b, 0, stop, f, ctx)
    ensures AnyFrom(a + b, i, stop) == AnyFrom(b, 0, stop)
    decreases |a| - i
  {
    if i == |a| {
      ConcatMapShift(a, b, 0, stop, f, ctx);
    } else {
      assert (a + b)[i] == a[i];
      ConcatMapConcat(a, b, i + 1, stop, f, ctx);
      var x := f(a[i], ctx);
      assert (x + ConcatMapUntil(a, i + 1, stop, f, ctx)) + ConcatMapUntil(b, 0, stop, f, ctx)
          == x + (ConcatMapUntil(a, i + 1, stop, f, ctx) + ConcatMapUntil(b, 0, stop, f, ctx));
    }
  }

  /** With a stop element in `a[i..]`, whatever follows `a` is never reached. */
  lemma {:induction false} ConcatMapStops<T, C, U>(a: seq<T>, b: seq<T>, i: nat, stop: T -> bool, f: (T, C) -> seq<U>, ctx: C)
    requires i <= |a| && AnyFrom(a, i, stop)
    ensures ConcatMapUntil(a + b, i, stop, f, ctx) == ConcatMapUntil(a, i, stop, f, ctx)
    decreases |a| - i
  {
    assert (a + b)[i] == a[i];
    if !stop(a[i]) {
      ConcatMapStops(a, b, i + 1, stop, f, ctx);
    }
  }

  /** Every element of the result comes from the image of a processed element. */
  lemma {:induction false} ConcatMapMembers<T, C, U>(s: seq<T>, i: nat, stop: T -> bool, f: (T, C) -> seq<U>, ctx: C)
    ensures forall u :: u in ConcatMapUntil(s, i, stop, f, ctx) ==>
      exists k :: i <= k < |s| && !stop(s[k]) && u in f(s[k], ctx)
    decreases |s| - i
  {
    if i < |s| && !stop(s[i]) {
      ConcatMapMembers(s, i + 1, stop, f, ctx);
    }
  }

  /** Kotlin's `indexOfFirst`: the first index satisfying `p`, or -1. */
  function IndexOfFirst<T>(s: seq<T>, p: T -> bool): (i: int)
    ensures -1 <= i < |s|
    ensures i >= 0 ==> p(s[i]) && forall k :: 0 <= k < i ==> !p(s[k])
    ensures i == -1 ==> forall k :: 0 <= k < |s| ==> !p(s[k])
  {
    if s == [] then -1
    else if p(s[0]) then 0
    else
      var j := IndexOfFirst(s[1..], p);
      if j == -1 then -1 else j + 1
  }

  /** Kotlin's `find`: the first element satisfying `p`. */
  function Find<T>(s: seq<T>, p: T -> bool): (r: Option<T>)
    ensures r.Some? <==> exists k :: 0 <= k < |s| && p(s[k])
    ensures r.Some? ==> exists k :: 0 <= k < |s| && s[k] == r.value && p(s[k]) && forall j :: 0 <= j < k ==> !p(s[j])
  {
    var i := IndexOfFirst(s, p);
    if i == -1 then None else Some(s[i])
  }

  /** Kotlin's `dropLast(n)`. */
  function DropLast<T>(s: seq<T>, n: nat): (r: seq<T>)
    ensures |r| == if n <= |s| then |s| - n else 0
    ensures r == s[..|r|]
  {
    if n <= |s| then s[..|s| - n] else []
  }

  /** Kotlin's `takeLast(n)`. */
  function TakeLast<T>(s: seq<T>, n: nat): (r: seq<T>)
    ensures |r| == if n <= |s| then n else |s|
    ensures r == s[|s| - |r|..]
  {
    if n <= |s| then s[|s| - n..] else s
  }

  /** A non-empty sequence is its initial part followed by its last element. */
  lemma SplitLast<T>(s: seq<T>)
    requires s != []
    ensures s == s[..|s| - 1] + [s[|s| - 1]]
  {
  }

  /** A sequence is its prefix followed by the rest. */
  lemma SplitAt<T>(s: seq<T>, i: nat)
    requires i <= |s|
    ensures s == s[..i] + s[i..]
  {
  }

  /** A prefix is a shorter prefix followed by the stretch between them. */
  lemma SplitPrefix<T>(s: seq<T>, lo: nat, hi: nat)
    requires lo <= hi <= |s|
    ensures s[..hi] == s[..lo] + s[lo..hi]
  {
  }

  /** A filter that keeps a prefix and a suffix whole and drops the stretch
      between them cuts that stretch out. */
  lemma FilterCutsBlock<T>(s: seq<T>, lo: nat, hi: nat, keep: T -> bool)
    requires lo <= hi <= |s|
    requires Filter(s[..lo], keep) == s[..lo]
    requires Filter(s[lo..hi], keep) == []
    requires Filter(s[hi..], keep) == s[hi..]
    ensures Filter(s, keep) == s[..lo] + s[hi..]
  {
    SplitAt(s, hi);
    SplitPrefix(s, lo, hi);
    FilterConcat(s[..hi], s[hi..], keep);
    FilterConcat(s[..lo], s[lo..hi], keep);
    ConcatEmpty(s[..lo]);
  }

  /** Concatenation is associative (stated once for use in loop proofs). */
  lemma ConcatAssoc<T>(a: seq<T>, b: seq<T>, c: seq<T>)
    ensures (a + b) + c == a + (b + c)
  {
  }

  /** An element without an image splits the images of a suffix into those
      before it and those after it. */
  lemma FilterMapSkip<A, B>(s: seq<A>, lo: nat, b: nat, f: A -> Option<B>)
    requires lo <= b < |s| && f(s[b]).None?
    ensures FilterMap(s[lo..], f) == FilterMap(s[lo..b], f) + FilterMap(s[b + 1..], f)
  {
    var rest := s[b + 1..];
    assert s[lo..] == s[lo..b] + ([s[b]] + rest);
    assert FilterMap([s[b]], f) == [] by {
      assert [s[b]][..0] == [];
    }
    FilterMapConcat([s[b]], rest, f);
    FilterMapConcat(s[lo..b], [s[b]] + rest, f);
  }

  /** The elements paired with their positions (Kotlin's `withIndex`). */
  function Indexed<A>(s: seq<A>): (r: seq<(int, A)>)
    ensures |r| == |s|
    ensures forall k :: 0 <= k < |s| ==> r[k] == (k, s[k])
  {
    seq(|s|, k requires 0 <= k < |s| => (k, s[k]))
  }

  /** When every image of a position-tagged element carries that position as
      its key, the images of the first `n` elements have keys below `n`, in
      strictly increasing order, each the image of the element at its key. */
  lemma {:induction false} FilterMapIndexedKeys<A, B>(s: seq<A>, n: nat, f: ((int, A)) -> Option<B>, key: B -> int)
    requires n <= |s|
    requires forall k :: 0 <= k < |s| && f((k, s[k])).Some? ==> key(f((k, s[k])).value) == k
    ensures var r := FilterMap(Indexed(s)[..n], f);
      (forall j :: 0 <= j < |r| ==> 0 <= key(r[j]) < n && f((key(r[j]), s[key(r[j])])) == Some(r[j]))
      && (forall i, j :: 0 <= i < j < |r| ==> key(r[i]) < key(r[j]))
    decreases n
  {
    if n > 0 {
      FilterMapIndexedKeys(s, n - 1, f, key);
      FilterMapStep(Indexed(s), n - 1, f);
      var r0 := FilterMap(Indexed(s)[..n - 1], f);
      var r := FilterMap(Indexed(s)[..n], f);
      assert Indexed(s)[n - 1] == (n - 1, s[n - 1]);
      forall i, j | 0 <= i < j < |r|
        ensures key(r[i]) < key(r[j])
      {
        if j >= |r0| {
          assert r[i] == r0[i];
        }
      }
    }
  }

  /** `FilterMapIndexedKeys` for the whole sequence. */
  lemma FilterMapIndexedAllKeys<A, B>(s: seq<A>, f: ((int, A)) -> Option<B>, key: B -> int, r: seq<B>)
    requires forall k :: 0 <= k < |s| && f((k, s[k])).Some? ==> key(f((k, s[k])).value) == k
    requires r == FilterMap(Indexed(s), f)
    ensures forall j :: 0 <= j < |r| ==> 0 <= key(r[j]) < |s| && f((key(r[j]), s[key(r[j])])) == Some(r[j])
    ensures forall i, j :: 0 <= i < j < |r| ==> key(r[i]) < key(r[j])
  {
    FilterMapIndexedKeys(s, |s|, f, key);
    assert Indexed(s)[..|s|] == Indexed(s);
  }

  lemma ConcatEmpty<T>(a: seq<T>)
    ensures [] + a == a && a + [] == a
  {
  }
}
