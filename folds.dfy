/**
 * List shapes the program uses again and again: keep what each element
 * yields, keep the elements that pass a test, find the first element that
 * passes one.
 */
module Folds {
  import opened Wrappers

  /** The value as a list of at most one element. */
  function OptionSeq<T>(o: Option<T>): (r: seq<T>)
    ensures o.None? <==> r == []
    ensures o.Some? ==> r == [o.value]
  {
    match o
    case None => []
    case Some(v) => [v]
  }

  /** What `f` yields for the elements of `xs`, in order, one entry per element that yields one. */
  function Collect<A, B>(xs: seq<A>, f: A -> Option<B>): seq<B>
    decreases |xs|
  {
    if |xs| == 0 then []
    else Collect(xs[..|xs| - 1], f) + OptionSeq(f(xs[|xs| - 1]))
  }

  /** One more element adds what it yields at the end. */
  lemma CollectSnoc<A, B>(xs: seq<A>, x: A, f: A -> Option<B>)
    ensures Collect(xs + [x], f) == Collect(xs, f) + OptionSeq(f(x))
  {
    assert (xs + [x])[..|xs|] == xs;
  }

  /** Each element contributes on its own, whatever the elements around it. */
  lemma {:induction false} CollectAppend<A, B>(a: seq<A>, b: seq<A>, f: A -> Option<B>)
    ensures Collect(a + b, f) == Collect(a, f) + Collect(b, f)
    decreases |b|
  {
    if |b| == 0 {
      assert a + b == a;
    } else {
      var b' := b[..|b| - 1];
      assert (a + b)[..|a + b| - 1] == a + b';
      assert (a + b)[|a + b| - 1] == b[|b| - 1];
      CollectAppend(a, b', f);
    }
  }

  /** Every entry is what some element yields. */
  lemma {:induction false} CollectMembers<A, B>(xs: seq<A>, f: A -> Option<B>)
    ensures forall y :: y in Collect(xs, f) ==> exists k :: 0 <= k < |xs| && f(xs[k]) == Some(y)
    decreases |xs|
  {
    if |xs| > 0 {
      var init := xs[..|xs| - 1];
      CollectMembers(init, f);
      forall y | y in Collect(xs, f)
        ensures exists k :: 0 <= k < |xs| && f(xs[k]) == Some(y)
      {
        if y in Collect(init, f) {
          var k :| 0 <= k < |init| && f(init[k]) == Some(y);
          assert xs[k] == init[k];
        } else {
          assert f(xs[|xs| - 1]) == Some(y);
        }
      }
    }
  }

  /** Every element that yields something has its entry in the result. */
  lemma {:induction false} CollectComplete<A, B>(xs: seq<A>, f: A -> Option<B>)
    ensures forall k :: 0 <= k < |xs| && f(xs[k]).Some? ==> f(xs[k]).value in Collect(xs, f)
    decreases |xs|
  {
    if |xs| > 0 {
      var init := xs[..|xs| - 1];
      CollectComplete(init, f);
      forall k | 0 <= k < |xs| && f(xs[k]).Some?
        ensures f(xs[k]).value in Collect(xs, f)
      {
        if k < |init| {
          assert xs[k] == init[k];
        }
      }
    }
  }

  /** At most one entry per element. */
  lemma {:induction false} CollectLength<A, B>(xs: seq<A>, f: A -> Option<B>)
    ensures |Collect(xs, f)| <= |xs|
    decreases |xs|
  {
    if |xs| > 0 {
      CollectLength(xs[..|xs| - 1], f);
    }
  }

  lemma CollectStep<A, B>(xs: seq<A>, i: nat, before: seq<B>, y: Option<B>, f: A -> Option<B>)
    requires i < |xs|
    requires before == Collect(xs[..i], f) && y == f(xs[i])
    ensures before + OptionSeq(y) == Collect(xs[..i + 1], f)
  {
    assert xs[..i + 1] == xs[..i] + [xs[i]];
    CollectSnoc(xs[..i], xs[i], f);
  }

  lemma CollectWhole<A, B>(xs: seq<A>, f: A -> Option<B>)
    ensures Collect(xs[..|xs|], f) == Collect(xs, f)
  {
    assert xs[..|xs|] == xs;
  }

  /** The present values of a list of options, in order. */
  function Somes<T>(os: seq<Option<T>>): (r: seq<T>)
    ensures |r| <= |os|
    ensures (forall k :: 0 <= k < |os| ==> os[k].None?) ==> r == []
    decreases |os|
  {
    if |os| == 0 then [] else Somes(os[..|os| - 1]) + OptionSeq(os[|os| - 1])
  }

  lemma SomesSnoc<T>(os: seq<Option<T>>, o: Option<T>)
    ensures Somes(os + [o]) == Somes(os) + OptionSeq(o)
  {
    assert (os + [o])[..|os|] == os;
  }

  /** Every value kept is present at some position. */
  lemma {:induction false} SomesMembers<T>(os: seq<Option<T>>)
    ensures forall y :: y in Somes(os) ==> exists k :: 0 <= k < |os| && os[k] == Some(y)
    decreases |os|
  {
    if |os| > 0 {
      var init := os[..|os| - 1];
      SomesMembers(init);
      forall y | y in Somes(os)
        ensures exists k :: 0 <= k < |os| && os[k] == Some(y)
      {
        if y in Somes(init) {
          var k :| 0 <= k < |init| && init[k] == Some(y);
          assert os[k] == init[k];
        } else {
          assert os[|os| - 1] == Some(y);
        }
      }
    }
  }

  /** The elements of `xs` that satisfy `p`, in their order: a list comprehension with a condition. */
  function Filter<T(!new)>(xs: seq<T>, p: T -> bool): (r: seq<T>)
    ensures |r| <= |xs|
    ensures forall x :: x in r <==> x in xs && p(x)
    decreases |xs|
  {
    if |xs| == 0 then []
    else
      var init := Filter(xs[..|xs| - 1], p);
      var last := xs[|xs| - 1];
      assert xs == xs[..|xs| - 1] + [last];
      if p(last) then init + [last] else init
  }

  /** Filtering keeps order: it distributes over concatenation. */
  lemma {:induction false} FilterAppend<T(!new)>(a: seq<T>, b: seq<T>, p: T -> bool)
    ensures Filter(a + b, p) == Filter(a, p) + Filter(b, p)
    decreases |b|
  {
    if |b| == 0 {
      assert a + b == a;
    } else {
      var init := b[..|b| - 1];
      assert (a + b)[..|a + b| - 1] == a + init;
      assert (a + b)[|a + b| - 1] == b[|b| - 1];
      FilterAppend(a, init, p);
    }
  }

  /** One more element is kept at the end exactly when it passes. */
  lemma FilterSnoc<T(!new)>(xs: seq<T>, x: T, p: T -> bool)
    ensures Filter(xs + [x], p) == Filter(xs, p) + (if p(x) then [x] else [])
  {
    assert (xs + [x])[..|xs|] == xs;
  }

  /** A filter every element passes keeps the list as it is. */
  lemma {:induction false} FilterAll<T(!new)>(xs: seq<T>, p: T -> bool)
    requires forall k :: 0 <= k < |xs| ==> p(xs[k])
    ensures Filter(xs, p) == xs
    decreases |xs|
  {
    if |xs| > 0 {
      FilterAll(xs[..|xs| - 1], p);
      assert xs == xs[..|xs| - 1] + [xs[|xs| - 1]];
    }
  }

  /** The position of the first element satisfying `p`, as `next(...)` over a generator finds it. */
  function FirstIndex<T>(xs: seq<T>, p: T -> bool): (r: Option<nat>)
    ensures r.None? <==> forall k :: 0 <= k < |xs| ==> !p(xs[k])
    ensures r.Some? ==> r.value < |xs| && p(xs[r.value]) && forall k :: 0 <= k < r.value ==> !p(xs[k])
    decreases |xs|
  {
    if |xs| == 0 then None
    else if p(xs[0]) then Some(0)
    else
      match FirstIndex(xs[1..], p)
      case None => None
      case Some(i) => Some(i + 1)
  }

  /** The first element of `xs` satisfying `p`, or `default` when there is none. */
  function FirstOr<T>(xs: seq<T>, p: T -> bool, default: T): (r: T)
    ensures (forall k :: 0 <= k < |xs| ==> !p(xs[k])) ==> r == default
    ensures forall i :: 0 <= i < |xs| && p(xs[i]) && (forall k :: 0 <= k < i ==> !p(xs[k])) ==> r == xs[i]
  {
    match FirstIndex(xs, p)
    case None => default
    case Some(i) => xs[i]
  }
}
