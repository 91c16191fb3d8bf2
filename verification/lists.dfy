/**
 * The array built-ins the components use: `Array.prototype.filter`,
 * `Array.prototype.find` (with the index it stops at) and `Array.prototype.join`.
 */
module Lists {
  import opened Wrappers

  /** `a` is what remains of `b` after deleting some elements; the order is kept. */
  ghost predicate IsSubsequence<T>(a: seq<T>, b: seq<T>)
    decreases |b|
  {
    a == [] ||
    (b != [] && ((a[0] == b[0] && IsSubsequence(a[1..], b[1..])) || IsSubsequence(a, b[1..])))
  }

  lemma {:induction false} SubsequenceElements<T>(a: seq<T>, b: seq<T>)
    requires IsSubsequence(a, b)
    ensures |a| <= |b|
    ensures forall x :: x in a ==> x in b
    decreases |b|
  {
    if a != [] {
      if a[0] == b[0] && IsSubsequence(a[1..], b[1..]) {
        SubsequenceElements(a[1..], b[1..]);
        assert a == [a[0]] + a[1..];
        assert b == [b[0]] + b[1..];
      } else {
        SubsequenceElements(a, b[1..]);
        assert b == [b[0]] + b[1..];
      }
    }
  }

  /** `xs.filter(p)`: the elements satisfying `p`, each as often as in `xs`, in their order in `xs`. */
  function Filter<T(==,!new)>(p: T -> bool, xs: seq<T>): (r: seq<T>)
    ensures forall i :: 0 <= i < |r| ==> p(r[i])
    ensures forall x :: x in r <==> x in xs && p(x)
  {
    if xs == [] then []
    else
      var rest := Filter(p, xs[1..]);
      if p(xs[0]) then [xs[0]] + rest else rest
  }

  /** A filter keeps each passing value as often as the input holds it, and no other value. */
  lemma {:induction false} FilterCounts<T(!new)>(p: T -> bool, xs: seq<T>)
    ensures forall x :: multiset(Filter(p, xs))[x] == if p(x) then multiset(xs)[x] else 0
  {
    if xs != [] {
      FilterCounts(p, xs[1..]);
      FilterUnfold(p, xs);
      assert xs == [xs[0]] + xs[1..];
    }
  }

  /** A filter keeps the order of the input: its result is a subsequence. */
  lemma {:induction false} FilterIsSubsequence<T(!new)>(p: T -> bool, xs: seq<T>)
    ensures IsSubsequence(Filter(p, xs), xs)
  {
    if xs != [] {
      FilterIsSubsequence(p, xs[1..]);
      var r := Filter(p, xs);
      if p(xs[0]) {
        assert r[0] == xs[0] && r[1..] == Filter(p, xs[1..]);
      }
    }
  }

  /** Filtering depends only on the verdicts the predicate gives on the elements present. */
  lemma {:induction false} FilterCongruent<T(!new)>(p: T -> bool, q: T -> bool, xs: seq<T>)
    requires forall x :: x in xs ==> p(x) == q(x)
    ensures Filter(p, xs) == Filter(q, xs)
  {
    if xs != [] {
      FilterCongruent(p, q, xs[1..]);
    }
  }

  /** Filtering a concatenation filters each part. */
  lemma {:induction false} FilterConcat<T(!new)>(p: T -> bool, xs: seq<T>, ys: seq<T>)
    ensures Filter(p, xs + ys) == Filter(p, xs) + Filter(p, ys)
  {
    if xs != [] {
      var zs := xs + ys;
      assert zs != [] && zs[0] == xs[0] && zs[1..] == xs[1..] + ys;
      var head := if p(xs[0]) then [xs[0]] else [];
      FilterUnfold(p, zs);
      FilterUnfold(p, xs);
      FilterConcat(p, xs[1..], ys);
      assert head + (Filter(p, xs[1..]) + Filter(p, ys)) == (head + Filter(p, xs[1..])) + Filter(p, ys);
    } else {
      assert xs + ys == ys;
    }
  }

  /** The first step of a filter: the head if it passes, then the filtered tail. */
  lemma FilterUnfold<T(!new)>(p: T -> bool, xs: seq<T>)
    requires xs != []
    ensures Filter(p, xs) == (if p(xs[0]) then [xs[0]] else []) + Filter(p, xs[1..])
  {
    if !p(xs[0]) {
      assert [] + Filter(p, xs[1..]) == Filter(p, xs[1..]);
    }
  }

  /** A filter keeps exactly the one element that passes, when only one does. */
  lemma {:induction false} FilterSingle<T(!new)>(p: T -> bool, xs: seq<T>, k: nat)
    requires k < |xs| && p(xs[k])
    requires forall j :: 0 <= j < |xs| && j != k ==> !p(xs[j])
    ensures Filter(p, xs) == [xs[k]]
  {
    if k == 0 {
      FilterEmpty(p, xs[1..]);
    } else {
      FilterSingle(p, xs[1..], k - 1);
    }
  }

  /** A filter keeps everything when every element passes. */
  lemma {:induction false} FilterAll<T(!new)>(p: T -> bool, xs: seq<T>)
    requires forall j :: 0 <= j < |xs| ==> p(xs[j])
    ensures Filter(p, xs) == xs
  {
    if xs != [] {
      FilterAll(p, xs[1..]);
    }
  }

  /** A filter keeps exactly a prefix when the elements before index k pass and the rest fail. */
  lemma FilterPrefix<T(!new)>(p: T -> bool, xs: seq<T>, k: nat)
    requires k <= |xs|
    requires forall j :: 0 <= j < k ==> p(xs[j])
    requires forall j :: k <= j < |xs| ==> !p(xs[j])
    ensures Filter(p, xs) == xs[..k]
  {
    var front, back := xs[..k], xs[k..];
    assert xs == front + back;
    forall j | 0 <= j < |front| ensures p(front[j]) {
      assert front[j] == xs[j];
    }
    forall x | x in back ensures !p(x) {
      var j :| 0 <= j < |back| && back[j] == x;
      assert back[j] == xs[k + j];
    }
    FilterAll(p, front);
    FilterEmpty(p, back);
    FilterConcat(p, front, back);
  }

  /** A filter keeps nothing exactly when no element satisfies the predicate. */
  lemma FilterEmpty<T(!new)>(p: T -> bool, xs: seq<T>)
    ensures Filter(p, xs) == [] <==> forall x :: x in xs ==> !p(x)
  {
    var r := Filter(p, xs);
    if r != [] {
      FilterCounts(p, xs);
      assert r[0] in r;
      assert multiset(r)[r[0]] > 0;
    }
  }

  /** The position of the first element satisfying `p` (what `findIndex` gives, with `None` for -1). */
  function FirstIndex<T>(p: T -> bool, xs: seq<T>): (r: Option<nat>)
    ensures r.Some? ==> r.value < |xs| && p(xs[r.value])
    ensures r.Some? ==> forall j :: 0 <= j < r.value ==> !p(xs[j])
    ensures r.None? ==> forall j :: 0 <= j < |xs| ==> !p(xs[j])
  {
    if xs == [] then None
    else if p(xs[0]) then Some(0)
    else
      match FirstIndex(p, xs[1..])
      case None => None
      case Some(k) => Some(k + 1)
  }

  /** `xs.find(p)`, with `None` for `undefined`: the first element satisfying `p`. */
  function Find<T>(p: T -> bool, xs: seq<T>): (r: Option<T>)
    ensures r.None? <==> forall j :: 0 <= j < |xs| ==> !p(xs[j])
    ensures r.Some? ==> p(r.value) && r.value in xs
    ensures r.Some? ==> FirstIndex(p, xs).Some? && r.value == xs[FirstIndex(p, xs).value]
  {
    match FirstIndex(p, xs)
    case None => None
    case Some(k) => Some(xs[k])
  }

  /** Sum of the lengths of the strings in `xs`. */
  function TotalLength<T>(xs: seq<seq<T>>): nat
  {
    if xs == [] then 0 else |xs[0]| + TotalLength(xs[1..])
  }

  /** `xs.join(sep)`: the elements in order with one `sep` between neighbours. */
  function Join<T>(xs: seq<seq<T>>, sep: seq<T>): (r: seq<T>)
    ensures |xs| == 1 ==> r == xs[0]
    ensures |xs| > 0 ==> |r| == TotalLength(xs) + (|xs| - 1) * |sep|
    ensures |xs| > 0 ==> r[..|xs[0]|] == xs[0]
    ensures xs == [] ==> r == []
  {
    if xs == [] then []
    else if |xs| == 1 then xs[0]
    else xs[0] + sep + Join(xs[1..], sep)
  }

  /** Joining a list with a head puts the head, then one separator, then the joined rest. */
  lemma JoinCons<T>(x: seq<T>, xs: seq<seq<T>>, sep: seq<T>)
    requires xs != []
    ensures Join([x] + xs, sep) == x + sep + Join(xs, sep)
  {
    var ys := [x] + xs;
    assert ys[0] == x && ys[1..] == xs && |ys| > 1;
  }
}
