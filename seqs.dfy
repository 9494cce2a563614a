/** Generic facts about sequences and their concatenation. */
module Seqs {
  import opened Wrappers

  /** The concatenation of `f(x)` for each `x` of `xs`, in order. */
  function FlatMap<T, U>(xs: seq<T>, f: T -> seq<U>): seq<U>
  {
    if xs == [] then [] else FlatMap(xs[..|xs| - 1], f) + f(xs[|xs| - 1])
  }

  /** Concatenating over two runs is concatenating over each. */
  lemma {:induction false} FlatMapAppend<T, U>(xs: seq<T>, ys: seq<T>, f: T -> seq<U>)
    decreases |ys|
    ensures FlatMap(xs + ys, f) == FlatMap(xs, f) + FlatMap(ys, f)
  {
    if ys == [] {
      assert xs + ys == xs;
    } else {
      var init := ys[..|ys| - 1];
      assert (xs + ys)[..|xs + ys| - 1] == xs + init;
      assert (xs + ys)[|xs + ys| - 1] == ys[|ys| - 1];
      FlatMapAppend(xs, init, f);
    }
  }

  /** Every element of a concatenation comes from one of its parts. */
  lemma {:induction false} FlatMapFrom<T, U>(xs: seq<T>, f: T -> seq<U>, y: U) returns (i: nat)
    decreases |xs|
    requires y in FlatMap(xs, f)
    ensures i < |xs| && y in f(xs[i])
  {
    var init := xs[..|xs| - 1];
    if y in FlatMap(init, f) {
      i := FlatMapFrom(init, f, y);
      assert xs[i] == init[i];
    } else {
      i := |xs| - 1;
    }
  }

  /** A concatenation is empty exactly when every part is. */
  lemma {:induction false} FlatMapEmpty<T, U>(xs: seq<T>, f: T -> seq<U>)
    decreases |xs|
    ensures FlatMap(xs, f) == [] <==> forall i :: 0 <= i < |xs| ==> f(xs[i]) == []
  {
    if xs != [] {
      var init := xs[..|xs| - 1];
      FlatMapEmpty(init, f);
      assert forall i :: 0 <= i < |init| ==> init[i] == xs[i];
    }
  }

  /** Concatenation is associative. */
  lemma AppendAssoc<T>(a: seq<T>, b: seq<T>, c: seq<T>)
    ensures a + b + c == a + (b + c)
  {
  }

  /** Concatenating over one more element appends that element's part. */
  lemma FlatMapSnoc<T, U>(xs: seq<T>, x: T, f: T -> seq<U>)
    ensures FlatMap(xs + [x], f) == FlatMap(xs, f) + f(x)
  {
    assert (xs + [x])[..|xs|] == xs;
  }

  /** Functions that agree on every element concatenate to the same. */
  lemma {:induction false} FlatMapAgree<T, U>(xs: seq<T>, f: T -> seq<U>, g: T -> seq<U>)
    requires forall i :: 0 <= i < |xs| ==> f(xs[i]) == g(xs[i])
    decreases |xs|
    ensures FlatMap(xs, f) == FlatMap(xs, g)
  {
    if xs != [] {
      var init := xs[..|xs| - 1];
      assert forall i :: 0 <= i < |init| ==> init[i] == xs[i];
      FlatMapAgree(init, f, g);
    }
  }

  /** The numbers 1..n in increasing order. */
  function OneTo(n: nat): (r: seq<nat>)
    ensures |r| == n && forall k :: 0 <= k < n ==> r[k] == k + 1
  {
    if n == 0 then [] else OneTo(n - 1) + [n]
  }

  /** The value `f` gives the last element of `xs` that it gives one. */
  function LastSome<T, U>(xs: seq<T>, f: T -> Option<U>): Option<U>
  {
    if xs == [] then None
    else
      match f(xs[|xs| - 1])
      case Some(v) => Some(v)
      case None => LastSome(xs[..|xs| - 1], f)
  }

  /** One more element replaces the value when it gives one. */
  lemma LastSomeSnoc<T, U>(xs: seq<T>, x: T, f: T -> Option<U>)
    ensures LastSome(xs + [x], f) == if f(x).Some? then f(x) else LastSome(xs, f)
  {
    assert (xs + [x])[..|xs|] == xs;
  }

  /** The value is that of element k when k gives one and no later element does. */
  lemma {:induction false} LastSomeAt<T, U>(xs: seq<T>, f: T -> Option<U>, k: nat)
    requires k < |xs| && f(xs[k]).Some?
    requires forall j :: k < j < |xs| ==> f(xs[j]).None?
    decreases |xs|
    ensures LastSome(xs, f) == f(xs[k])
  {
    if k < |xs| - 1 {
      var init := xs[..|xs| - 1];
      assert init[k] == xs[k];
      assert forall j :: k < j < |init| ==> init[j] == xs[j];
      LastSomeAt(init, f, k);
    }
  }

  /** There is no value exactly when no element gives one. */
  lemma {:induction false} LastSomeNone<T, U>(xs: seq<T>, f: T -> Option<U>)
    decreases |xs|
    ensures LastSome(xs, f).None? <==> forall j :: 0 <= j < |xs| ==> f(xs[j]).None?
  {
    if xs != [] {
      var init := xs[..|xs| - 1];
      LastSomeNone(init, f);
      assert forall j :: 0 <= j < |init| ==> init[j] == xs[j];
    }
  }

  /** No element occurs twice. */
  predicate Distinct<T(==)>(s: seq<T>)
  {
    forall i, j :: 0 <= i < j < |s| ==> s[i] != s[j]
  }

  /** Appending a new element keeps a sequence free of repetitions. */
  lemma DistinctSnoc<T>(s: seq<T>, x: T)
    requires Distinct(s) && x !in s
    ensures Distinct(s + [x])
  {
    forall i, j | 0 <= i < j < |s| + 1 ensures (s + [x])[i] != (s + [x])[j] {
      if j == |s| {
        assert (s + [x])[i] == s[i] && s[i] in s;
      }
    }
  }

  /** A sequence without repetitions has as many distinct elements as it is long. */
  lemma {:induction false} DistinctCard<T>(s: seq<T>)
    requires Distinct(s)
    decreases |s|
    ensures |set i | 0 <= i < |s| :: s[i]| == |s|
  {
    if s != [] {
      var init := s[..|s| - 1];
      DistinctCard(init);
      var a := set i | 0 <= i < |init| :: init[i];
      var b := set i | 0 <= i < |s| :: s[i];
      assert b == a + {s[|s| - 1]};
      assert s[|s| - 1] !in a;
    }
  }

  /** The sum of `f(x)` over the elements `x` of `xs`. */
  function SumOf<T>(xs: seq<T>, f: T -> nat): nat
  {
    if xs == [] then 0 else SumOf(xs[..|xs| - 1], f) + f(xs[|xs| - 1])
  }

  /** Summing over two runs is summing over each. */
  lemma {:induction false} SumOfAppend<T>(xs: seq<T>, ys: seq<T>, f: T -> nat)
    decreases |ys|
    ensures SumOf(xs + ys, f) == SumOf(xs, f) + SumOf(ys, f)
  {
    if ys == [] {
      assert xs + ys == xs;
    } else {
      var init := ys[..|ys| - 1];
      assert (xs + ys)[..|xs + ys| - 1] == xs + init;
      assert (xs + ys)[|xs + ys| - 1] == ys[|ys| - 1];
      SumOfAppend(xs, init, f);
    }
  }

  /** `ys` with the element at `j` taken out, and `ys` rebuilt around it. */
  lemma RemoveAt<T>(ys: seq<T>, j: nat)
    requires j < |ys|
    ensures ys == ys[..j] + [ys[j]] + ys[j + 1..]
    ensures multiset(ys) == multiset(ys[..j] + ys[j + 1..]) + multiset{ys[j]}
  {
    assert ys == ys[..j] + [ys[j]] + ys[j + 1..];
  }

  /** Taking the same element out of two equal multisets leaves equal ones. */
  lemma MultisetCancel<T>(a: seq<T>, b: seq<T>, x: T, xs: seq<T>, ys: seq<T>)
    requires xs == a + [x] && multiset(ys) == multiset(b) + multiset{x}
    requires multiset(xs) == multiset(ys)
    ensures multiset(a) == multiset(b)
  {
    assert multiset(xs) == multiset(a) + multiset{x};
    forall y ensures multiset(a)[y] == multiset(b)[y] {
      assert (multiset(a) + multiset{x})[y] == (multiset(b) + multiset{x})[y];
    }
  }

  /** A sum does not depend on the order of its terms. */
  lemma {:induction false} SumOfPermutation<T>(xs: seq<T>, ys: seq<T>, f: T -> nat)
    requires multiset(xs) == multiset(ys)
    decreases |xs|
    ensures SumOf(xs, f) == SumOf(ys, f)
  {
    if xs != [] {
      var init, x := xs[..|xs| - 1], xs[|xs| - 1];
      assert xs == init + [x];
      assert x in multiset(ys);
      var j :| 0 <= j < |ys| && ys[j] == x;
      RemoveAt(ys, j);
      var rest := ys[..j] + ys[j + 1..];
      MultisetCancel(init, rest, x, xs, ys);
      SumOfPermutation(init, rest, f);
      SumOfAppend(init, [x], f);
      SumOfRemove(ys, j, f);
      assert [x][..0] == [];
    }
  }

  /** Taking one element out of a sequence takes its term out of the sum. */
  lemma SumOfRemove<T>(ys: seq<T>, j: nat, f: T -> nat)
    requires j < |ys|
    ensures SumOf(ys, f) == SumOf(ys[..j] + ys[j + 1..], f) + f(ys[j])
  {
    var left, right := ys[..j], ys[j + 1..];
    assert ys == left + [ys[j]] + right;
    SumOfAppend(left, right, f);
    SumOfAppend(left + [ys[j]], right, f);
    SumOfAppend(left, [ys[j]], f);
    assert [ys[j]][..0] == [];
  }

  /** A concatenation holds the same elements, as a multiset, whatever the
      order of its parts. */
  lemma {:induction false} FlatMapPermutation<T, U>(xs: seq<T>, ys: seq<T>, f: T -> seq<U>)
    requires multiset(xs) == multiset(ys)
    decreases |xs|
    ensures multiset(FlatMap(xs, f)) == multiset(FlatMap(ys, f))
  {
    if xs != [] {
      var init, x := xs[..|xs| - 1], xs[|xs| - 1];
      assert xs == init + [x];
      assert x in multiset(ys);
      var j :| 0 <= j < |ys| && ys[j] == x;
      RemoveAt(ys, j);
      var rest := ys[..j] + ys[j + 1..];
      MultisetCancel(init, rest, x, xs, ys);
      FlatMapPermutation(init, rest, f);
      FlatMapAppend(init, [x], f);
      FlatMapSnoc([], x, f);
      FlatMapRemove(ys, j, f);
    }
  }

  /** Taking one element out of a sequence takes its part out of the
      concatenation, as a multiset. */
  lemma FlatMapRemove<T, U>(ys: seq<T>, j: nat, f: T -> seq<U>)
    requires j < |ys|
    ensures multiset(FlatMap(ys, f)) == multiset(FlatMap(ys[..j] + ys[j + 1..], f)) + multiset(f(ys[j]))
  {
    var left, right := ys[..j], ys[j + 1..];
    assert ys == left + [ys[j]] + right;
    FlatMapAppend(left, right, f);
    FlatMapAppend(left + [ys[j]], right, f);
    FlatMapSnoc(left, ys[j], f);
  }
}
