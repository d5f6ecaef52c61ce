/** Sequence helpers shared by the whole model: an Option type and the
    filter-then-map shape of a Python list comprehension with an `if` clause
    (or of a `for` loop that appends only some of its elements). */
module Sequences {

  datatype Option<T> = None | Some(value: T)

  /** Regrouping a concatenation, stated once so that long proofs about
      appended output need not rediscover it element by element. */
  lemma AppendAssoc<T>(a: seq<T>, b: seq<T>, c: seq<T>)
    ensures (a + b) + c == a + (b + c)
  {
  }

  /** `[f(x) for x in xs]`, built from the back like FilterMap. */
  function Map<A, B>(xs: seq<A>, f: A -> B): (ys: seq<B>)
    ensures |ys| == |xs|
    decreases |xs|
  {
    if xs == [] then [] else Map(xs[..|xs| - 1], f) + [f(xs[|xs| - 1])]
  }

  /** Mapping keeps the length and maps each position on its own. */
  lemma {:induction false} MapAt<A, B>(xs: seq<A>, f: A -> B)
    ensures |Map(xs, f)| == |xs|
    ensures forall k :: 0 <= k < |xs| ==> Map(xs, f)[k] == f(xs[k])
    decreases |xs|
  {
    if xs != [] {
      var init := xs[..|xs| - 1];
      MapAt(init, f);
      assert forall k :: 0 <= k < |init| ==> init[k] == xs[k];
    }
  }

  /** `[f(x) for x in xs if keep(x)]`, built from the back so that a loop
      appending one element at a time matches it prefix by prefix. */
  function FilterMap<A, B>(xs: seq<A>, keep: A -> bool, f: A -> B): (ys: seq<B>)
    ensures |ys| <= |xs|
  {
    if xs == [] then []
    else FilterMap(xs[..|xs| - 1], keep, f) + (if keep(xs[|xs| - 1]) then [f(xs[|xs| - 1])] else [])
  }

  /** Filtering a concatenation filters each part. */
  lemma {:induction false} FilterMapAppend<A, B>(xs: seq<A>, ys: seq<A>, keep: A -> bool, f: A -> B)
    ensures FilterMap(xs + ys, keep, f) == FilterMap(xs, keep, f) + FilterMap(ys, keep, f)
    decreases |ys|
  {
    if ys == [] {
      assert xs + ys == xs;
    } else {
      var init := ys[..|ys| - 1];
      assert (xs + ys)[..|xs + ys| - 1] == xs + init;
      assert (xs + ys)[|xs + ys| - 1] == ys[|ys| - 1];
      FilterMapAppend(xs, init, keep, f);
    }
  }

  /** One element contributes its image when kept and nothing otherwise. */
  lemma FilterMapSingle<A, B>(x: A, keep: A -> bool, f: A -> B)
    ensures FilterMap([x], keep, f) == if keep(x) then [f(x)] else []
  {
    assert [x][..0] == [];
  }

  /** A dropped element can be removed from anywhere without changing the result. */
  lemma FilterMapSkip<A, B>(xs: seq<A>, x: A, ys: seq<A>, keep: A -> bool, f: A -> B)
    requires !keep(x)
    ensures FilterMap(xs + [x] + ys, keep, f) == FilterMap(xs + ys, keep, f)
  {
    FilterMapAppend(xs + [x], ys, keep, f);
    FilterMapAppend(xs, [x], keep, f);
    FilterMapSingle(x, keep, f);
    FilterMapAppend(xs, ys, keep, f);
  }

  /** The independent description of FilterMap: the result is the image of
      exactly the kept elements, taken at strictly increasing positions. */
  lemma {:induction false} FilterMapOrigins<A, B>(xs: seq<A>, keep: A -> bool, f: A -> B)
    returns (origin: seq<nat>)
    ensures |origin| == |FilterMap(xs, keep, f)|
    ensures forall k :: 0 <= k < |origin| ==>
      origin[k] < |xs| && keep(xs[origin[k]]) && FilterMap(xs, keep, f)[k] == f(xs[origin[k]])
    ensures forall k, l :: 0 <= k < l < |origin| ==> origin[k] < origin[l]
    ensures forall j :: 0 <= j < |xs| && keep(xs[j]) ==> j in origin
    decreases |xs|
  {
    if xs == [] {
      origin := [];
    } else {
      var n := |xs| - 1;
      var init := xs[..n];
      var o := FilterMapOrigins(init, keep, f);
      ghost var before := FilterMap(init, keep, f);
      ghost var ys := FilterMap(xs, keep, f);
      forall k | 0 <= k < |o|
        ensures o[k] < n && xs[o[k]] == init[o[k]] && ys[k] == before[k]
      {
      }
      forall j | 0 <= j < n && keep(xs[j])
        ensures j in o
      {
        assert init[j] == xs[j];
      }
      if keep(xs[n]) {
        origin := o + [n];
        assert ys == before + [f(xs[n])];
      } else {
        origin := o;
        assert ys == before;
      }
    }
  }

  /** When every element is kept the result is the element-wise image. */
  lemma {:induction false} FilterMapAllKept<A, B>(xs: seq<A>, keep: A -> bool, f: A -> B)
    requires forall i :: 0 <= i < |xs| ==> keep(xs[i])
    ensures |FilterMap(xs, keep, f)| == |xs|
    ensures forall i :: 0 <= i < |xs| ==> FilterMap(xs, keep, f)[i] == f(xs[i])
    decreases |xs|
  {
    if xs != [] {
      var init := xs[..|xs| - 1];
      assert forall i :: 0 <= i < |init| ==> init[i] == xs[i];
      FilterMapAllKept(init, keep, f);
    }
  }

  /** When no element is kept the result is empty. */
  lemma {:induction false} FilterMapNoneKept<A, B>(xs: seq<A>, keep: A -> bool, f: A -> B)
    requires forall i :: 0 <= i < |xs| ==> !keep(xs[i])
    ensures FilterMap(xs, keep, f) == []
    decreases |xs|
  {
    if xs != [] {
      var init := xs[..|xs| - 1];
      assert forall i :: 0 <= i < |init| ==> init[i] == xs[i];
      FilterMapNoneKept(init, keep, f);
    }
  }
}
