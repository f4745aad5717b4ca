/** Dense row-major tensors of any rank: shapes, index arithmetic and the torch operations
    that the factored tensors of LoraTensor.dfy are measured against. */
module Tensors {
  type Shape = seq<nat>
  type Index = seq<nat>

  function Prod(s: Shape): nat {
    if s == [] then 1 else s[0] * Prod(s[1..])
  }

  predicate InBounds(i: Index, s: Shape) {
    |i| == |s| && forall k :: 0 <= k < |s| ==> i[k] < s[k]
  }

  /** Row-major offset of a multi-index. */
  function Flat(i: Index, s: Shape): (p: nat)
    requires InBounds(i, s)
    ensures p < Prod(s)
  {
    if s == [] then 0
    else
      var q := Flat(i[1..], s[1..]);
      assert i[0] * Prod(s[1..]) + q < s[0] * Prod(s[1..]) by { OffsetBound(i[0], q, s[0], Prod(s[1..])); }
      i[0] * Prod(s[1..]) + q
  }

  /** Multi-index found at a row-major offset. */
  function Unflat(p: nat, s: Shape): (i: Index)
    requires p < Prod(s)
    ensures InBounds(i, s)
  {
    if s == [] then []
    else
      DivBound(p, s[0], Prod(s[1..]));
      [p / Prod(s[1..])] + Unflat(p % Prod(s[1..]), s[1..])
  }

  lemma OffsetBound(i: nat, q: nat, m: nat, n: nat)
    requires i < m && q < n
    ensures i * n + q < m * n
  {
    assert i * n + n == (i + 1) * n;
    assert (i + 1) * n <= m * n;
  }

  lemma MulMonotone(a: int, b: int, n: nat)
    ensures a <= b ==> a * n <= b * n
    ensures (a + 1) * n == a * n + n
  {}

  lemma DivBound(p: nat, m: nat, n: nat)
    requires p < m * n
    ensures n > 0 && p / n < m
  {
    MulMonotone(m, p / n, n);
    assert p == (p / n) * n + p % n;
  }

  lemma DivModSum(p: nat, n: nat)
    requires n > 0
    ensures p == (p / n) * n + p % n
  {}

  lemma DivModUnique(i: nat, q: nat, n: nat)
    requires q < n
    ensures (i * n + q) / n == i && (i * n + q) % n == q
  {
    var d := (i * n + q) / n;
    assert i * n + q == d * n + (i * n + q) % n;
    MulMonotone(d + 1, i, n);
    MulMonotone(i + 1, d, n);
    MulMonotone(d, i, n);
    MulMonotone(i, d, n);
  }

  lemma FlatCons(x: nat, i: Index, s: Shape)
    requires s != [] && x < s[0] && InBounds(i, s[1..])
    ensures InBounds([x] + i, s) && Flat([x] + i, s) == x * Prod(s[1..]) + Flat(i, s[1..])
  {
    assert ([x] + i)[1..] == i;
    forall k | 0 <= k < |s| ensures ([x] + i)[k] < s[k] {
      if k > 0 { assert i[k - 1] < s[1..][k - 1]; }
    }
  }

  lemma {:induction false} FlatUnflat(p: nat, s: Shape)
    requires p < Prod(s)
    ensures Flat(Unflat(p, s), s) == p
  {
    if s != [] {
      var n := Prod(s[1..]);
      DivBound(p, s[0], n);
      var x, q := p / n, p % n;
      DivModSum(p, n);
      FlatUnflat(q, s[1..]);
      FlatCons(x, Unflat(q, s[1..]), s);
    }
  }

  lemma {:induction false} UnflatFlat(i: Index, s: Shape)
    requires InBounds(i, s)
    ensures Unflat(Flat(i, s), s) == i
  {
    if s != [] {
      DivModUnique(i[0], Flat(i[1..], s[1..]), Prod(s[1..]));
      UnflatFlat(i[1..], s[1..]);
      assert i == [i[0]] + i[1..];
    }
  }

  lemma {:induction false} ProdConcat(s: Shape, t: Shape)
    ensures Prod(s + t) == Prod(s) * Prod(t)
  {
    if s == [] {
      assert s + t == t;
    } else {
      assert (s + t)[1..] == s[1..] + t;
      ProdConcat(s[1..], t);
      MulAssoc(s[0], Prod(s[1..]), Prod(t));
    }
  }

  lemma MulAssoc(a: int, b: int, c: int)
    ensures a * (b * c) == (a * b) * c
  {}

  lemma InBoundsConcat(i: Index, j: Index, s: Shape, t: Shape)
    requires InBounds(i, s) && InBounds(j, t)
    ensures InBounds(i + j, s + t)
  {}

  lemma {:induction false} FlatConcat(i: Index, j: Index, s: Shape, t: Shape)
    requires InBounds(i, s) && InBounds(j, t)
    ensures InBounds(i + j, s + t)
    ensures Flat(i + j, s + t) == Flat(i, s) * Prod(t) + Flat(j, t)
    decreases |s|, 1
  {
    InBoundsConcat(i, j, s, t);
    if s == [] {
      assert i + j == j && s + t == t;
    } else {
      FlatConcatStep(i, j, s, t);
    }
  }

  lemma {:induction false} FlatConcatStep(i: Index, j: Index, s: Shape, t: Shape)
    requires InBounds(i, s) && InBounds(j, t) && s != [] && InBounds(i + j, s + t)
    ensures Flat(i + j, s + t) == Flat(i, s) * Prod(t) + Flat(j, t)
    decreases |s|, 0
  {
    hide Flat, Prod;
    var x, m, n := i[0], Prod(s[1..]), Prod(t);
    assert (s + t)[1..] == s[1..] + t;
    assert i == [x] + i[1..] && i + j == [x] + (i[1..] + j);
    FlatConcat(i[1..], j, s[1..], t);
    FlatCons(x, i[1..], s);
    FlatCons(x, i[1..] + j, s + t);
    ProdConcat(s[1..], t);
    Horner(x, m, Flat(i[1..], s[1..]), n);
  }

  lemma Horner(i: int, m: int, q: int, n: int)
    ensures i * (m * n) + q * n == (i * m + q) * n
  {}

  datatype RawTensor = RawTensor(shape: Shape, data: seq<int>)

  /** A tensor stores one entry for each index of its shape, in row-major order. */
  type Tensor = t: RawTensor | |t.data| == Prod(t.shape) witness RawTensor([], [0])

  function At(t: Tensor, i: Index): int
    requires InBounds(i, t.shape)
  {
    t.data[Flat(i, t.shape)]
  }

  /** Two tensors are the same when they have the same shape and agree at every index. */
  lemma Extensional(a: Tensor, b: Tensor)
    requires a.shape == b.shape
    requires forall i :: InBounds(i, a.shape) ==> At(a, i) == At(b, i)
    ensures a == b
  {
    forall p | 0 <= p < Prod(a.shape) ensures a.data[p] == b.data[p] {
      FlatUnflat(p, a.shape);
      assert At(a, Unflat(p, a.shape)) == At(b, Unflat(p, a.shape));
    }
    assert a.data == b.data;
  }

  ghost predicate Covers(f: Index --> int, s: Shape) {
    forall i :: InBounds(i, s) ==> f.requires(i)
  }

  /** The tensor whose entry at every index is given by `f`. */
  function Tabulate(s: Shape, f: Index --> int): (t: Tensor)
    requires Covers(f, s)
    ensures t.shape == s
  {
    RawTensor(s, seq(Prod(s), p requires 0 <= p < Prod(s) => f(Unflat(p, s))))
  }

  lemma TabulateAt(s: Shape, f: Index --> int, i: Index)
    requires Covers(f, s) && InBounds(i, s)
    ensures At(Tabulate(s, f), i) == f(i)
  {
    UnflatFlat(i, s);
  }
}
