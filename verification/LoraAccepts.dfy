/** Which requests the operations on factored tensors accept, said of the shapes alone. */
module LoraAccepts {
  import opened Wrappers
  import opened Tensors
  import opened TensorOps
  import opened LoraTensor
  import opened LoraIndexing
  import opened LoraReshape
  import opened LoraSubscript
  import opened LoraPermute
  import opened LoraSplit
  import opened LoraEntries
  import LoraScale

  // ---------- -1 in a requested shape ----------

  lemma {:induction false} IntProdConcat(s: seq<int>, t: seq<int>)
    ensures IntProd(s + t) == IntProd(s) * IntProd(t)
  {
    if s == [] {
      assert s + t == t;
    } else {
      assert (s + t)[1..] == s[1..] + t;
      IntProdConcat(s[1..], t);
      Associative(s[0], IntProd(s[1..]), IntProd(t));
    }
  }

  lemma Associative(x: int, y: int, z: int)
    ensures x * (y * z) == (x * y) * z
  {}

  lemma KnownStep(s: seq<int>)
    requires s != []
    ensures Known(s) == (if s[0] == -1 then [] else [s[0]]) + Known(s[1..])
  {}

  /** A request whose only -1 stands at position p. */
  predicate InfersAt(s: seq<int>, p: nat) {
    p < |s| && s[p] == -1 && -1 !in s[..p] && -1 !in s[p + 1..]
  }

  lemma {:induction false} KnownAll(s: seq<int>)
    requires -1 !in s
    ensures Known(s) == s
  {
    if s != [] { KnownAll(s[1..]); }
  }

  lemma {:induction false} KnownAround(s: seq<int>, p: nat)
    requires InfersAt(s, p)
    ensures Known(s) == s[..p] + s[p + 1..]
  {
    KnownStep(s);
    hide Known;
    if p == 0 {
      KnownAll(s[1..]);
    } else {
      var t := s[1..];
      assert s[0] == s[..p][0] && t[..p - 1] == s[..p][1..] && t[p..] == s[p + 1..];
      KnownAround(t, p - 1);
      assert [s[0]] + (t[..p - 1] + t[p..]) == s[..p] + s[p + 1..];
    }
  }

  /** One -1 becomes the dimension that makes the count come out. It fails when there is none, or when the others
      multiply to zero and any would do. */
  lemma InferredDimension(s: seq<int>, p: nat, count: nat, q: int)
    requires InfersAt(s, p)
    ensures Expand(s, count) == Some(s[p := q]) <==> IntProd(s[p := q]) == count && IntProd(s[..p] + s[p + 1..]) != 0
    ensures var e := Expand(s, count); e.Some? ==> |e.value| == |s| && e.value == s[p := e.value[p]]
  {
    hide IntProd, Known;
    KnownAround(s, p);
    var m := IntProd(Known(s));
    assert s[p := q] == s[..p] + ([q] + s[p + 1..]);
    IntProdConcat(s[..p], [q] + s[p + 1..]);
    IntProdConcat([q], s[p + 1..]);
    IntProdConcat(s[..p], s[p + 1..]);
    OneFactor(q);
    Commuted(IntProd(s[..p]), q, IntProd(s[p + 1..]));
    assert -1 in s;
    if m != 0 {
      DivisionExact(count, m, q);
      var d := count / m;
      ReplacedOnce(s, p, d);
      assert s[p := q] == s[p := d] ==> q == d by { assert s[p := q][p] == q && s[p := d][p] == d; }
    }
  }

  lemma ReplacedOnce(s: seq<int>, p: nat, d: int)
    requires InfersAt(s, p)
    ensures Replace(s, d) == s[p := d]
  {
    forall k | 0 <= k < |s| ensures Replace(s, d)[k] == s[p := d][k] {
      if k < p { assert s[k] == s[..p][k]; } else if k > p { assert s[k] == s[p + 1..][k - p - 1]; }
    }
  }

  lemma OneFactor(q: int)
    ensures IntProd([q]) == q
  {
    assert [q][1..] == [];
    assert IntProd([]) == 1;
  }

  lemma Commuted(x: int, q: int, y: int)
    ensures x * (q * y) == (x * y) * q
  {}

  lemma DivisionExact(c: int, m: int, q: int)
    requires m != 0
    ensures m * q == c <==> c % m == 0 && q == c / m
  {
    assert c == m * (c / m) + c % m;
    if m * q == c { ExactQuotient(m, q); }
  }

  lemma ExactQuotient(m: int, q: int)
    requires m != 0
    ensures (m * q) % m == 0 && (m * q) / m == q
  {
    var c := m * q;
    var r, d := c % m, c / m;
    assert c == m * d + r;
    assert m * (q - d) == r;
    if q != d { NotSmaller(m, q - d); }
  }

  lemma NotSmaller(m: int, x: int)
    requires m != 0 && x != 0
    ensures m * x >= m * x && (m * x <= -m || m * x >= m) && (m * x <= m || m * x >= -m)
  {}

  // ---------- subscripts ----------

  /** An int is accepted exactly when it names a position of both first axes and more than one axis is left. */
  lemma GetIntAccepts(l: Lora, j: int)
    ensures GetInt(l, j).Success? <==>
      && Dims(l) > 2
      && 0 <= j + l.A.shape[0] && j < l.A.shape[0]
      && 0 <= j + l.B.shape[0] && j < l.B.shape[0]
  {
    hide PickT, TorchIndex, FullPicks;
    FirstAxis(l.A, Int(j));
    FirstAxis(l.B, Int(j));
    if TorchIndex(l.A, [Int(j)]).Success? && TorchIndex(l.B, [Int(j)]).Success? {
      TakenEntries(l.A, j, []);
      TakenEntries(l.B, j, []);
    }
  }

  /** A slice is accepted exactly when its step is positive. */
  lemma GetSliceAccepts(l: Lora, p: PyIndex)
    requires p.Slice?
    ensures GetSlice(l, p).Success? <==> p.step.None? || p.step.value > 0
  {
    hide PickT, TorchIndex, FullPicks;
    FirstAxis(l.A, p);
    FirstAxis(l.B, p);
    if Stride(p) > 0 {
      SlicedEntries(l.A, p, []);
      SlicedEntries(l.B, p, []);
    }
  }

  // ---------- concatenating ----------

  /** Shapes of as many axes that differ at most in the first one. */
  predicate SameBehind(s: Shape, t: Shape) {
    |s| == |t| && forall k :: 1 <= k < |s| ==> s[k] == t[k]
  }

  predicate AllSameBehind(ts: seq<Tensor>) {
    forall k :: 0 <= k < |ts| ==> SameBehind(ts[0].shape, ts[k].shape)
  }

  /** Concatenation is accepted exactly when there is a piece, all B agree behind their first axes, and so do all A
      or, for a first piece that is a matrix, all A are the same. */
  lemma CatAccepts(ls: seq<Lora>)
    ensures Cat(ls).Success? <==>
      && ls != []
      && AllSameBehind(FactorsB(ls))
      && if Dims(ls[0]) > 2 then AllSameBehind(FactorsA(ls)) else forall k :: 0 <= k < |ls| ==> ls[k].A == ls[0].A
  {
    hide TorchCat, AllSameBehind;
    if ls != [] {
      TorchCatAccepts(FactorsB(ls));
      if Dims(ls[0]) > 2 { TorchCatAccepts(FactorsA(ls)); }
    }
  }

  lemma TorchCatAccepts(ts: seq<Tensor>)
    requires ts != [] && ts[0].shape != []
    ensures TorchCat(ts, 0).Success? <==> AllSameBehind(ts)
    ensures TorchCat(ts, 0).Success? ==> SameBehind(ts[0].shape, TorchCat(ts, 0).value.shape)
  {
    hide JoinAll;
  }

  // ---------- scaling ----------

  function Leading(n: nat): (s: Shape)
    ensures |s| == n && forall k :: 0 <= k < n ==> s[k] == 1
  {
    AsShape(Ones(n))
  }

  lemma {:induction false} PaddedShape(m: Tensor, n: nat)
    requires |m.shape| <= n
    ensures LoraScale.Padded(m, n).shape == Leading(n - |m.shape|) + m.shape
    decreases n - |m.shape|
  {
    if |m.shape| < n {
      assert ([1] + m.shape)[1..] == m.shape;
      var more := RawTensor([1] + m.shape, m.data);
      PaddedShape(more, n);
      assert Leading(n - |m.shape| - 1) + more.shape == Leading(n - |m.shape|) + m.shape;
    }
  }

  /** Two axes broadcast together. */
  predicate Fits(x: nat, y: nat) {
    x == y || x == 1 || y == 1
  }

  predicate FitsFromRight(s: Shape, t: Shape) {
    |t| <= |s| && forall a :: 0 <= a < |t| ==> Fits(s[|s| - |t| + a], t[a])
  }

  lemma LeadingFit(s: Shape, t: Shape)
    requires |t| <= |s|
    ensures LoraScale.Compatible(s, Leading(|s| - |t|) + t) <==> FitsFromRight(s, t)
  {
    var n := |s| - |t|;
    var p := Leading(n) + t;
    assert forall a :: 0 <= a < |t| ==> p[n + a] == t[a];
    if FitsFromRight(s, t) {
      forall k | 0 <= k < |s| ensures s[k] == p[k] || s[k] == 1 || p[k] == 1 {
        if k >= n { assert Fits(s[n + (k - n)], t[k - n]); }
      }
    }
    if LoraScale.Compatible(s, p) {
      forall a | 0 <= a < |t| ensures Fits(s[n + a], t[a]) { assert s[n + a] == p[n + a] || s[n + a] == 1 || p[n + a] == 1; }
    }
  }

  /** Scaling is accepted exactly when the multiplier has no more axes than the tensor, leaves the last one alone, and
      each of its axes fits the one it meets from the right: they are equal, or one of them is 1. */
  lemma MulAccepts(l: Lora, m: Tensor)
    requires Broadcasts(l)
    ensures LoraScale.Mul(l, m).Success? <==>
      FitsFromRight(ShapeOf(l), m.shape) && (m.shape == [] || m.shape[|m.shape| - 1] == 1)
  {
    hide Dense, LoraScale.TorchMul, LoraScale.Padded, LoraScale.Mul, ShapeOf, LoraScale.Compatible, Leading;
    LoraScale.MulMeaning(l, m);
    if |m.shape| <= Dims(l) {
      PaddedShape(m, Dims(l));
      LeadingFit(ShapeOf(l), m.shape);
    }
  }

  // ---------- splitting ----------

  /** Along an axis that exists, splitting is accepted exactly when the chunks have a positive size, or size zero on an
      axis of length zero, or when the given lengths are not negative and add up to the length of the axis. */
  lemma SplitAccepts(l: Lora, spec: SplitSize, dim: int)
    requires Broadcasts(l) && AxisOk(dim, Dims(l))
    ensures var n := ShapeOf(l)[NormalAxis(dim, Dims(l))];
      Split(l, spec, dim).Success? <==>
        match spec
        case Every(size) => size > 0 || (size == 0 && n == 0)
        case Sections(ss) => (forall k :: 0 <= k < |ss| ==> ss[k] >= 0) && Total(ss) == n
  {
    hide Dense, Split, SplitT, ChunkSizes, ShapeOf, TorchCat, ChunksMatch;
    SplitMeaning(l, spec, dim);
    ChunkLengths(spec, ShapeOf(l)[NormalAxis(dim, Dims(l))]);
    assert Dense(l).shape == ShapeOf(l);
  }
}
