/**
 * Facts about slicing and updating a sequence made of four consecutive
 * parts, which is how a chunk is laid out. They hold for any element type.
 */
module Sequences {

  lemma SliceParts<T>(p: seq<T>, q: seq<T>, r: seq<T>, s: seq<T>)
    ensures (p + q + r + s)[..|p|] == p
    ensures (p + q + r + s)[|p|..|p| + |q|] == q
    ensures (p + q + r + s)[|p| + |q|..|p| + |q| + |r|] == r
    ensures (p + q + r + s)[|p| + |q| + |r|..] == s
  {
    var w := p + q + r + s;
    assert w[..|p|] == p;
    assert w[|p|..|p| + |q|] == q;
    assert w[|p| + |q|..|p| + |q| + |r|] == r;
    assert w[|p| + |q| + |r|..] == s;
  }

  lemma JoinParts<T>(v: seq<T>, i: nat, j: nat, k: nat, l: nat)
    requires i <= j <= k <= l <= |v|
    ensures v[..l] == v[..i] + v[i..j] + v[j..k] + v[k..l]
  {
  }

  lemma SliceOfPrefix<T>(a: seq<T>, v: seq<T>, i: nat, j: nat)
    requires a <= v && i <= j <= |a|
    ensures v[i..j] == a[i..j]
  {
    assert v[..|a|] == a;
    assert v[i..j] == v[..|a|][i..j];
  }

  lemma SliceToEnd<T>(v: seq<T>, i: nat, j: nat)
    requires i <= j == |v|
    ensures v[i..j] == v[i..] && v[..j] == v
  {
  }

  /** Updating an element of the second part. */
  lemma UpdateSecond<T>(p: seq<T>, q: seq<T>, r: seq<T>, s: seq<T>, i: nat, y: T)
    requires i < |q|
    ensures (p + q + r + s)[|p| + i := y] == p + q[i := y] + r + s
  {
  }

  /** Updating an element of the third part. */
  lemma UpdateThird<T>(p: seq<T>, q: seq<T>, r: seq<T>, s: seq<T>, i: nat, y: T)
    requires i < |r|
    ensures (p + q + r + s)[|p| + |q| + i := y] == p + q + r[i := y] + s
  {
  }

  lemma PrefixOfSameLength<T>(a: seq<T>, v: seq<T>)
    ensures a <= v && |a| == |v| <==> a == v
  {
    if a <= v && |a| == |v| {
      assert a == v[..|v|];
    }
  }
}
