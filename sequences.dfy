/** Concatenation of a sequence of sequences: Python's `flatmap` and `yield from`. */
module Sequences {

  lemma AppendAssoc<T>(a: seq<T>, b: seq<T>, c: seq<T>)
    ensures (a + b) + c == a + (b + c)
  {
  }

  function Flatten<T>(xss: seq<seq<T>>): seq<T>
  {
    if xss == [] then [] else xss[0] + Flatten(xss[1..])
  }

  lemma {:induction false} FlattenAppend<T>(xss: seq<seq<T>>, yss: seq<seq<T>>)
    ensures Flatten(xss + yss) == Flatten(xss) + Flatten(yss)
  {
    if xss == [] {
      assert xss + yss == yss;
    } else {
      assert (xss + yss)[1..] == xss[1..] + yss;
      FlattenAppend(xss[1..], yss);
    }
  }

  /** An element of the concatenation comes from one of the parts, and every element
      of every part is in the concatenation. */
  lemma {:induction false} FlattenContains<T>(xss: seq<seq<T>>, x: T)
    ensures x in Flatten(xss) <==> exists i :: 0 <= i < |xss| && x in xss[i]
  {
    if xss != [] {
      FlattenContains(xss[1..], x);
      if x in Flatten(xss[1..]) {
        var i :| 0 <= i < |xss[1..]| && x in xss[1..][i];
        assert x in xss[i + 1];
      }
      if exists i :: 0 <= i < |xss| && x in xss[i] {
        var i :| 0 <= i < |xss| && x in xss[i];
        if i > 0 {
          assert x in xss[1..][i - 1];
        }
      }
    }
  }

  /** Part `m` lies in the concatenation as one contiguous slice, right after the
      parts before it. */
  lemma FlattenHoldsAt<T>(xss: seq<seq<T>>, m: nat)
    requires m < |xss|
    ensures var o := |Flatten(xss[..m])|;
      o + |xss[m]| <= |Flatten(xss)| && Flatten(xss)[o..o + |xss[m]|] == xss[m]
  {
    var pre, post := xss[..m], xss[m + 1..];
    assert xss == pre + ([xss[m]] + post);
    FlattenAppend(pre, [xss[m]] + post);
    FlattenAppend([xss[m]], post);
    assert Flatten([xss[m]]) == xss[m] + Flatten([xss[m]][1..]);
    assert [xss[m]][1..] == [];
  }

  /** The images of the elements under `f`, concatenated in order: a loop that
      appends `f(x)` for each `x`. */
  function ConcatMap<T, U>(xs: seq<T>, f: T -> seq<U>): seq<U>
  {
    if xs == [] then [] else ConcatMap(xs[..|xs| - 1], f) + f(xs[|xs| - 1])
  }

  lemma ConcatMapStep<T, U>(xs: seq<T>, n: nat, f: T -> seq<U>)
    requires n < |xs|
    ensures ConcatMap(xs[..n + 1], f) == ConcatMap(xs[..n], f) + f(xs[n])
  {
    assert xs[..n + 1][..n] == xs[..n];
  }

  /** The image of every element under `f`, in order. */
  function Map<T, U>(xs: seq<T>, f: T -> U): (ys: seq<U>)
    ensures |ys| == |xs|
    ensures forall i :: 0 <= i < |xs| ==> ys[i] == f(xs[i])
  {
    seq(|xs|, i requires 0 <= i < |xs| => f(xs[i]))
  }

  lemma MapStep<T, U>(xs: seq<T>, n: nat, f: T -> U)
    requires n < |xs|
    ensures Map(xs[..n + 1], f) == Map(xs[..n], f) + [f(xs[n])]
  {
  }
}
