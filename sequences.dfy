/**
 * The keep-and-transform walk that the pipeline performs again and again:
 * visit the items of a list in order, skip some (`continue`) and append a
 * value derived from each of the others.  The step function answers `None`
 * for a skipped item and `Some(v)` for an item that contributes `v`.
 */
module Sequences {
  import opened Wrappers

  /** The values contributed by the items of `s`, in the order of `s`. */
  function FilterMap<T, U>(s: seq<T>, step: T -> Option<U>): (r: seq<U>)
    ensures |r| <= |s|
    decreases |s|
  {
    if s == [] then []
    else
      var init := FilterMap(s[..|s| - 1], step);
      match step(s[|s| - 1])
      case Some(v) => init + [v]
      case None => init
  }

  /** What one more item adds at the end of the walk. */
  function Contribution<U>(v: Option<U>): seq<U> {
    match v
    case Some(x) => [x]
    case None => []
  }

  /** The walk over the first `i + 1` items extends the walk over the first
      `i` by the contribution of item `i`. */
  lemma {:induction false} FilterMapExtend<T, U>(s: seq<T>, i: nat, step: T -> Option<U>)
    requires i < |s|
    ensures FilterMap(s[..i + 1], step) == FilterMap(s[..i], step) + Contribution(step(s[i]))
  {
    assert s[..i + 1][..i] == s[..i];
  }

  /** The positions in `s` of the items that contribute, in increasing order. */
  function KeptIndices<T, U>(s: seq<T>, step: T -> Option<U>): seq<nat>
    decreases |s|
  {
    if s == [] then []
    else
      var init := KeptIndices(s[..|s| - 1], step);
      if step(s[|s| - 1]).Some? then init + [|s| - 1] else init
  }

  ghost predicate StrictlyIncreasing(idx: seq<nat>) {
    forall k, l :: 0 <= k < l < |idx| ==> idx[k] < idx[l]
  }

  /**
   * FilterMap keeps exactly the items whose step answers `Some`, each once,
   * in their original order: its k-th value is the step's value at the
   * k-th kept position, and every position whose step answers `Some` is kept.
   */
  lemma {:induction false} FilterMapByIndices<T, U>(s: seq<T>, step: T -> Option<U>)
    ensures var r, idx := FilterMap(s, step), KeptIndices(s, step);
      && |idx| == |r|
      && StrictlyIncreasing(idx)
      && (forall k :: 0 <= k < |idx| ==> idx[k] < |s| && step(s[idx[k]]) == Some(r[k]))
      && (forall i :: 0 <= i < |s| && step(s[i]).Some? ==> i in idx)
    decreases |s|
  {
    if s != [] {
      var init := s[..|s| - 1];
      FilterMapByIndices(init, step);
      var n := |s| - 1;
      assert forall i :: 0 <= i < n ==> s[i] == init[i];
    }
  }

  /** An item contributes a value to the result exactly when its step answers `Some`. */
  lemma {:induction false} KeptIff<T, U>(s: seq<T>, step: T -> Option<U>, i: nat)
    requires i < |s|
    ensures i in KeptIndices(s, step) <==> step(s[i]).Some?
  {
    FilterMapByIndices(s, step);
  }

  /** The result is empty exactly when no item contributes. */
  lemma {:induction false} FilterMapEmpty<T, U>(s: seq<T>, step: T -> Option<U>)
    ensures FilterMap(s, step) == [] <==> forall i :: 0 <= i < |s| ==> step(s[i]).None?
    decreases |s|
  {
    if s != [] {
      var init := s[..|s| - 1];
      FilterMapEmpty(init, step);
      assert forall i :: 0 <= i < |init| ==> init[i] == s[i];
    }
  }

  /** When every item contributes itself, the walk returns its input unchanged. */
  lemma {:induction false} FilterMapKeepsAll<T>(s: seq<T>, step: T -> Option<T>)
    requires forall i :: 0 <= i < |s| ==> step(s[i]) == Some(s[i])
    ensures FilterMap(s, step) == s
    decreases |s|
  {
    if s != [] {
      var init := s[..|s| - 1];
      assert forall i :: 0 <= i < |init| ==> init[i] == s[i];
      FilterMapKeepsAll(init, step);
      assert init + [s[|s| - 1]] == s;
    }
  }

  /** The walk over two lists one after the other is the two walks joined. */
  lemma {:induction false} FilterMapAppend<T, U>(a: seq<T>, b: seq<T>, step: T -> Option<U>)
    ensures FilterMap(a + b, step) == FilterMap(a, step) + FilterMap(b, step)
    decreases |b|
  {
    if b == [] {
      assert a + b == a;
    } else {
      var init := b[..|b| - 1];
      FilterMapAppend(a, init, step);
      assert (a + b)[..|a + b| - 1] == a + init;
      assert (a + b)[|a + b| - 1] == b[|b| - 1];
    }
  }

  /** An item that does not contribute makes the result shorter than the input. */
  lemma {:induction false} FilterMapShrinks<T, U>(s: seq<T>, step: T -> Option<U>, i: nat)
    requires i < |s| && step(s[i]).None?
    ensures |FilterMap(s, step)| < |s|
  {
    assert s == s[..i] + [s[i]] + s[i + 1..];
    FilterMapAppend(s[..i] + [s[i]], s[i + 1..], step);
    FilterMapAppend(s[..i], [s[i]], step);
    assert [s[i]][..0] == [];
  }

  /** `[f(x) for x in s]`. */
  function Map<T, U>(s: seq<T>, f: T -> U): (r: seq<U>)
    ensures |r| == |s| && forall k :: 0 <= k < |s| ==> r[k] == f(s[k])
  {
    seq(|s|, k requires 0 <= k < |s| => f(s[k]))
  }

  /** A step that reads back what `f` encodes recovers the encoded items. */
  lemma {:induction false} FilterMapDecodes<T, U>(xs: seq<T>, f: T -> U, step: U -> Option<T>)
    requires forall k :: 0 <= k < |xs| ==> step(f(xs[k])) == Some(xs[k])
    ensures FilterMap(Map(xs, f), step) == xs
    decreases |xs|
  {
    if xs != [] {
      var n := |xs| - 1;
      var ys := Map(xs, f);
      assert ys[..n] == Map(xs[..n], f);
      FilterMapDecodes(xs[..n], f, step);
      assert xs[..n] + [xs[n]] == xs;
    }
  }
}
