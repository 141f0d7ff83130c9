/** Facts about parts of sequences that several modules need. */
module Sequences {

  lemma Middle<T>(a: seq<T>, b: seq<T>, c: seq<T>)
    ensures (a + b + c)[|a|..|a| + |b|] == b
  {
  }

  lemma DropAppend<T>(a: seq<T>, b: seq<T>, k: nat)
    requires k <= |a|
    ensures (a + b)[k..] == a[k..] + b
  {
  }

  lemma SliceSlice<T>(a: seq<T>, i: nat, j: nat, k: nat, l: nat)
    requires i <= j <= |a| && k <= l <= j - i
    ensures a[i..j][k..l] == a[i + k..i + l]
  {
    forall m | 0 <= m < l - k
      ensures a[i..j][k..l][m] == a[i + k..i + l][m]
    {
      assert a[i..j][k..l][m] == a[i..j][k + m] == a[i + (k + m)];
      assert a[i + k..i + l][m] == a[(i + k) + m];
    }
  }

  lemma DropSlice<T>(a: seq<T>, i: nat, k: nat, l: nat)
    requires i <= |a| && k <= l <= |a| - i
    ensures a[i..][k..l] == a[i + k..i + l]
  {
    SliceSlice(a, i, |a|, k, l);
    assert a[i..|a|] == a[i..];
  }

  lemma PrefixSlice<T>(a: seq<T>, m: nat, i: nat, j: nat)
    requires i <= j <= m <= |a|
    ensures a[..m][i..j] == a[i..j]
  {
  }

  lemma TakeAndDrop<T>(a: seq<T>, k: nat)
    requires k <= |a|
    ensures a == a[..k] + a[k..]
  {
  }

  lemma SplitInThree<T>(a: seq<T>, p: nat, q: nat)
    requires p <= q <= |a|
    ensures a[..p] + a[p..q] + a[q..] == a
  {
  }

  lemma Associate<T>(a: seq<T>, b: seq<T>, c: seq<T>)
    ensures a + b + c == a + (b + c)
  {
  }

  lemma Nothing<T>(a: seq<T>)
    ensures a + [] == a && [] + a == a
  {
  }

  lemma LastApart<T>(a: seq<T>, b: seq<T>)
    requires b != []
    ensures a + b == a + b[..|b| - 1] + [b[|b| - 1]] && b == b[..|b| - 1] + [b[|b| - 1]]
  {
  }

  lemma HeadAndTail<T>(a: seq<T>)
    requires a != []
    ensures [a[0]] + a[1..] == a
  {
  }

  lemma TakeMore<T>(a: seq<T>, k: nat, n: nat)
    requires k + n <= |a|
    ensures a[..k + n] == a[..k] + a[k..k + n]
  {
  }

  lemma Regroup<T>(a: seq<T>, b: seq<T>, c: seq<T>, d: seq<T>)
    ensures a + (b + c) + d == a + b + (c + d)
  {
  }

  /** Pieces one behind the other. */
  function Flatten<T>(fs: seq<seq<T>>): seq<T> {
    if fs == [] then [] else Flatten(fs[..|fs| - 1]) + fs[|fs| - 1]
  }

  lemma FlattenSnoc<T>(fs: seq<seq<T>>, k: nat)
    requires k < |fs|
    ensures Flatten(fs[..k + 1]) == Flatten(fs[..k]) + fs[k]
  {
    assert fs[..k + 1][..k] == fs[..k];
  }

  lemma FlattenMore<T>(fs: seq<seq<T>>, f: seq<T>)
    ensures Flatten(fs + [f]) == Flatten(fs) + f
  {
    assert (fs + [f])[..|fs|] == fs;
  }

  lemma FlattenNothing<T>()
    ensures Flatten<T>([]) == []
  {
  }
}
