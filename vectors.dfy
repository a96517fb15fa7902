/**
 Embedding vectors and the numpy arithmetic the centroid computation uses:
 `np.zeros(d)`, `+=` and `/=` by a count. Components are exact reals.
 */
module Vectors {

  type Vector = seq<real>

  /** Every vector of `vs` has `d` components. */
  predicate AllDim(vs: seq<Vector>, d: nat) {
    forall v :: v in vs ==> |v| == d
  }

  /** `np.zeros(d)`. */
  function Zeros(d: nat): (z: Vector)
    ensures |z| == d
  {
    seq(d, _ => 0.0)
  }

  /** Component-wise addition (`a += b` on arrays of one shape). */
  function Add(a: Vector, b: Vector): (c: Vector)
    requires |a| == |b|
    ensures |c| == |a|
  {
    seq(|a|, i requires 0 <= i < |a| => a[i] + b[i])
  }

  /** Component-wise division by a positive count (`v /= n`). */
  function DivBy(v: Vector, n: nat): (r: Vector)
    requires n > 0
    ensures |r| == |v|
  {
    seq(|v|, i requires 0 <= i < |v| => v[i] / (n as real))
  }

  /** Reference definition: the sum of component `j` over all vectors,
      accumulated from the front. */
  function ComponentSum(vs: seq<Vector>, j: nat): real
    requires forall v :: v in vs ==> j < |v|
  {
    if vs == [] then 0.0 else vs[0][j] + ComponentSum(vs[1..], j)
  }

  /** The running total of a loop that starts from `Zeros(d)` and adds each
      vector in turn; component `j` is the sum of the components `j`. */
  function Sum(vs: seq<Vector>, d: nat): (s: Vector)
    requires AllDim(vs, d)
    ensures |s| == d
  {
    if vs == [] then Zeros(d) else Add(Sum(vs[..|vs| - 1], d), vs[|vs| - 1])
  }

  /** The mean of a non-empty list of vectors of one length: component `j`
      is the sum of the components `j` divided by how many vectors there are. */
  function Mean(vs: seq<Vector>, d: nat): (m: Vector)
    requires AllDim(vs, d) && |vs| > 0
    ensures |m| == d
    ensures forall j :: 0 <= j < d ==> m[j] == ComponentSum(vs, j) / (|vs| as real)
  {
    SumIsComponentSum(vs, d);
    DivBy(Sum(vs, d), |vs|)
  }

  lemma {:induction false} ComponentSumSnoc(vs: seq<Vector>, x: Vector, j: nat)
    requires forall v :: v in vs ==> j < |v|
    requires j < |x|
    ensures ComponentSum(vs + [x], j) == ComponentSum(vs, j) + x[j]
  {
    if vs != [] {
      assert (vs + [x])[1..] == vs[1..] + [x];
      ComponentSumSnoc(vs[1..], x, j);
    }
  }

  /** The loop's running total agrees with the reference definition. */
  lemma {:induction false} SumIsComponentSum(vs: seq<Vector>, d: nat)
    requires AllDim(vs, d)
    ensures forall j :: 0 <= j < d ==> Sum(vs, d)[j] == ComponentSum(vs, j)
  {
    if vs != [] {
      var init, last := vs[..|vs| - 1], vs[|vs| - 1];
      assert vs == init + [last];
      SumIsComponentSum(init, d);
      forall j | 0 <= j < d ensures Sum(vs, d)[j] == ComponentSum(vs, j) {
        ComponentSumSnoc(init, last, j);
      }
    }
  }

  lemma AddRotate(p: Vector, q: Vector, x: Vector)
    requires |p| == |q| == |x|
    ensures Add(Add(p, x), q) == Add(Add(p, q), x)
  {
  }

  lemma AddZerosLeft(v: Vector)
    ensures Add(Zeros(|v|), v) == v
  {
  }

  /** Summing a concatenation adds the two sums. */
  lemma {:induction false} SumAppend(a: seq<Vector>, b: seq<Vector>, d: nat)
    requires AllDim(a, d) && AllDim(b, d)
    ensures AllDim(a + b, d)
    ensures Sum(a + b, d) == Add(Sum(a, d), Sum(b, d))
  {
    if b == [] {
      assert a + b == a;
      assert Add(Sum(a, d), Zeros(d)) == Sum(a, d);
    } else {
      var init, last := b[..|b| - 1], b[|b| - 1];
      assert (a + b)[..|a + b| - 1] == a + init;
      assert (a + b)[|a + b| - 1] == last;
      assert AllDim(init, d) by {
        forall v | v in init ensures |v| == d {
          assert v in b;
        }
      }
      SumAppend(a, init, d);
      assert Add(Add(Sum(a, d), Sum(init, d)), last) == Add(Sum(a, d), Add(Sum(init, d), last));
    }
  }

  lemma MultisetRemoveAt<T>(b: seq<T>, k: nat)
    requires k < |b|
    ensures multiset(b) == multiset(b[..k] + b[k + 1..]) + multiset{b[k]}
  {
    assert b == b[..k] + [b[k]] + b[k + 1..];
  }

  lemma MultisetCancel<T>(p: multiset<T>, q: multiset<T>, x: T)
    requires p + multiset{x} == q + multiset{x}
    ensures p == q
  {
    forall y ensures p[y] == q[y] {
      assert (p + multiset{x})[y] == (q + multiset{x})[y];
    }
  }

  /** Taking vector `k` out of the list and adding it at the end. */
  lemma SumRemoveAt(b: seq<Vector>, k: nat, d: nat)
    requires AllDim(b, d) && k < |b|
    ensures AllDim(b[..k] + b[k + 1..], d) && |b[k]| == d
    ensures Sum(b, d) == Add(Sum(b[..k] + b[k + 1..], d), b[k])
  {
    var left, x, right := b[..k], b[k], b[k + 1..];
    assert b == left + [x] + right;
    assert AllDim(left, d) && AllDim(right, d) && |x| == d by {
      forall v | v in left ensures |v| == d { assert v in b; }
      forall v | v in right ensures |v| == d { assert v in b; }
      assert x in b;
    }
    SumAppend(left, right, d);
    SumAppend(left, [x], d);
    SumAppend(left + [x], right, d);
    assert Sum([x], d) == x by {
      assert [x][..0] == [];
      AddZerosLeft(x);
    }
    AddRotate(Sum(left, d), Sum(right, d), x);
  }

  /** The sum does not depend on the order of the vectors: any permutation
      of the list (same multiset) gives the same sum. */
  lemma {:induction false} SumPermutation(a: seq<Vector>, b: seq<Vector>, d: nat)
    requires AllDim(a, d) && AllDim(b, d)
    requires multiset(a) == multiset(b)
    ensures Sum(a, d) == Sum(b, d)
    decreases |a|
  {
    if a == [] {
      assert |multiset(b)| == 0;
      assert b == [];
    } else {
      var init, x := a[..|a| - 1], a[|a| - 1];
      assert a == init + [x];
      assert x in multiset(b);
      var k :| 0 <= k < |b| && b[k] == x;
      var rest := b[..k] + b[k + 1..];
      MultisetRemoveAt(b, k);
      assert multiset(a) == multiset(init) + multiset{x};
      MultisetCancel(multiset(init), multiset(rest), x);
      assert AllDim(init, d) by {
        forall v | v in init ensures |v| == d { assert v in a; }
      }
      SumRemoveAt(b, k, d);
      SumPermutation(init, rest, d);
    }
  }

  /** A sum of `n` copies of `v` is `n * v`. */
  lemma {:induction false} SumOfCopies(vs: seq<Vector>, v: Vector)
    requires forall k :: 0 <= k < |vs| ==> vs[k] == v
    ensures AllDim(vs, |v|)
    ensures forall j :: 0 <= j < |v| ==> Sum(vs, |v|)[j] == (|vs| as real) * v[j]
  {
    if vs != [] {
      SumOfCopies(vs[..|vs| - 1], v);
    }
  }

  /** The mean of copies of one vector is that vector. */
  lemma MeanOfCopies(vs: seq<Vector>, v: Vector)
    requires |vs| > 0
    requires forall k :: 0 <= k < |vs| ==> vs[k] == v
    ensures AllDim(vs, |v|)
    ensures Mean(vs, |v|) == v
  {
    SumOfCopies(vs, v);
    var n := |vs| as real;
    forall j | 0 <= j < |v| ensures Mean(vs, |v|)[j] == v[j] {
      assert Sum(vs, |v|)[j] == n * v[j];
      assert (n * v[j]) / n == v[j];
    }
  }
}
