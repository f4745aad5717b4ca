/** Permuting and transposing a factored tensor, and chains of reshapes and permutations. */
module LoraPermute {
  import opened Wrappers
  import opened Tensors
  import opened TensorOps
  import opened LoraTensor
  import opened LoraReshape

  /** Axes counted from the end, as the program rewrites them before comparing with -1 and -2. */
  function FromEnd(dims: seq<int>, n: nat): (r: seq<int>)
    ensures |r| == |dims|
    ensures forall k :: 0 <= k < |r| ==> r[k] == if dims[k] >= 0 then dims[k] - n else dims[k]
  {
    seq(|dims|, k requires 0 <= k < |dims| => if dims[k] >= 0 then dims[k] - n else dims[k])
  }

  function Permute(l: Lora, dims: seq<int>): Result<Lora> {
    var d := FromEnd(dims, Dims(l));
    if |d| == 0 then Failure
    else if d[|d| - 1] == -1 then
      if !AllOnes(LeadA(l)) then Failure
      else
        var b := TorchPermute(l.B, d);
        if b.Success? then Make(l.A, b.value) else Failure
    else if Dims(l) == 2 && |d| >= 2 && d[|d| - 1] == -2 && d[|d| - 2] == -1 then
      var a, b := TorchPermute(l.B, d), TorchPermute(l.A, d);
      if a.Success? && b.Success? then Make(a.value, b.value) else Failure
    else Failure
  }

  lemma FromEndAxes(dims: seq<int>, n: nat)
    requires AxesOk(FromEnd(dims, n), n)
    ensures (forall k :: 0 <= k < n ==> dims[k] < n) <==> AxesOk(dims, n)
    ensures AxesOk(dims, n) ==> NormalAxes(FromEnd(dims, n), n) == NormalAxes(dims, n)
  {
    var d := FromEnd(dims, n);
    forall k | 0 <= k < n
      ensures 0 <= dims[k] + n && (dims[k] < n ==> NormalAxis(dims[k], n) == NormalAxis(d[k], n))
    {
      assert 0 <= d[k] + n && d[k] < n;
    }
  }

  function PermutedB(l: Lora, d: seq<nat>): (r: RawLora)
    requires IsPermutation(d, Dims(l))
  {
    RawLora(l.A, PermuteT(l.B, d))
  }

  predicate KeepsLast(d: seq<nat>, n: nat) {
    n >= 2 && IsPermutation(d, n) && d[n - 1] == n - 1
  }

  lemma PermutedBShape(l: Lora, d: seq<nat>)
    requires AllOnes(LeadA(l)) && KeepsLast(d, Dims(l))
    ensures var r := PermutedB(l, d);
      FactorsAgree(r.A, r.B) && Rank(r) == Rank(l) && ShapeOf(r) == PermutedShape(ShapeOf(l), d) && Broadcasts(r)
  {
    var n := Dims(l);
    var r := PermutedB(l, d);
    forall k | 0 <= k < n ensures ShapeOf(r)[k] == PermutedShape(ShapeOf(l), d)[k] {
      if k < n - 1 { assert d[k] != d[n - 1]; }
    }
    forall k | 0 <= k < n - 2 ensures r.A.shape[k] == 1 { assert LeadA(l)[k] == 1; }
  }

  lemma UnpermutedRow(i: Index, d: seq<nat>, k: nat)
    requires KeepsLast(d, |i|)
    ensures Unpermuted(i, d)[|i| - 1] == i[|i| - 1]
    ensures Unpermuted(IndexB(i, k), d) == IndexB(Unpermuted(i, d), k)
  {
    var n := |i|;
    var b, s := IndexB(i, k), Unpermuted(i, d);
    assert s[d[n - 1]] == i[n - 1];
    forall m | 0 <= m < n ensures IndexB(s, k)[d[m]] == b[m] {
      if m < n - 1 { assert d[m] != d[n - 1]; }
    }
    UnpermutedUnique(b, d, IndexB(s, k));
  }

  lemma SharedIndexA(i: Index, s: Index, lead: Shape, k: nat)
    requires |i| == |s| == |lead| + 2 && i[|i| - 1] == s[|s| - 1] && AllOnes(lead)
    ensures IndexA(i, lead, k) == IndexA(s, lead, k)
  {
    assert Stretch(i[..|i| - 2], lead) == Stretch(s[..|s| - 2], lead);
  }

  /** Moving the axes of B above the last one moves them in the product. */
  lemma PermuteTerm(l: Lora, d: seq<nat>, i: Index, k: nat)
    requires Broadcasts(l) && AllOnes(LeadA(l)) && KeepsLast(d, Dims(l))
    requires InBounds(i, PermutedShape(ShapeOf(l), d)) && k < Rank(l)
    ensures var r := PermutedB(l, d);
      && FactorsAgree(r.A, r.B) && Broadcasts(r) && Rank(r) == Rank(l) && ShapeOf(r) == PermutedShape(ShapeOf(l), d)
      && InBounds(Unpermuted(i, d), ShapeOf(l))
      && Term(r, i, k) == Term(l, Unpermuted(i, d), k)
  {
    hide Dense, PermuteT, Prod;
    PermutedBShape(l, d);
    var r := PermutedB(l, d);
    UnpermutedInBounds(i, d, ShapeOf(l));
    var s := Unpermuted(i, d);
    UnpermutedRow(i, d, k);
    FactorIndices(r, i, k);
    FactorIndices(l, s, k);
    PermuteAt(l.B, d, IndexB(i, k));
    SharedIndexA(i, s, LeadA(l), k);
  }

  const FLIP: seq<nat> := [1, 0]

  lemma FlipShape(s: Shape)
    requires |s| == 2
    ensures IsPermutation(FLIP, 2) && PermutedShape(s, FLIP) == [s[1], s[0]]
  {
    assert FLIP[0] == 1 && FLIP[1] == 0;
  }

  function TransposedFactors(l: Lora): (r: Lora)
    requires Dims(l) == 2
    ensures r.A.shape == [Rank(l), l.B.shape[0]] && r.B.shape == [Cols(l), Rank(l)]
  {
    FlipShape(l.A.shape);
    FlipShape(l.B.shape);
    RawLora(PermuteT(l.B, FLIP), PermuteT(l.A, FLIP))
  }

  lemma SwapIndex(x: nat, y: nat)
    ensures IsPermutation(FLIP, 2) && Unpermuted([x, y], FLIP) == [y, x]
  {
    UnpermutedUnique([x, y], FLIP, [y, x]);
  }

  /** The plain matrix transpose: the product's transpose is the reversed product of transposes. */
  lemma TransposeTerm(l: Lora, x: nat, y: nat, k: nat)
    requires Dims(l) == 2 && k < Rank(l) && InBounds([y, x], ShapeOf(l))
    ensures InBounds([x, y], ShapeOf(TransposedFactors(l)))
    ensures Term(TransposedFactors(l), [x, y], k) == Term(l, [y, x], k)
  {
    hide Dense, PermuteT, Prod;
    var r := TransposedFactors(l);
    assert ShapeOf(l) == [l.B.shape[0], Cols(l)] && ShapeOf(r) == [Cols(l), l.B.shape[0]];
    assert [y, x][0] == y && [y, x][1] == x;
    FactorIndices(r, [x, y], k);
    FactorIndices(l, [y, x], k);
    assert IndexB([x, y], k) == [x, k] && IndexB([y, x], k) == [y, k];
    assert IndexA([x, y], LeadA(r), k) == [k, y] && IndexA([y, x], LeadA(l), k) == [k, x];
    SwapIndex(x, k);
    SwapIndex(k, y);
    PermuteAt(l.A, FLIP, [x, k]);
    PermuteAt(l.B, FLIP, [k, y]);
  }

  lemma PermuteBMeaning(l: Lora, d: seq<nat>)
    requires Broadcasts(l) && AllOnes(LeadA(l)) && KeepsLast(d, Dims(l))
    ensures var r := PermutedB(l, d);
      FactorsAgree(r.A, r.B) && Broadcasts(r) && Rank(r) == Rank(l) && Dense(r) == PermuteT(Dense(l), d)
  {
    hide Dense, PermuteT, Prod;
    PermutedBShape(l, d);
    var r: Lora := PermutedB(l, d);
    var w := PermuteT(Dense(l), d);
    forall i | InBounds(i, w.shape) ensures At(Dense(r), i) == At(w, i) {
      DenseAt(r, i);
      PermuteAt(Dense(l), d, i);
      DenseAt(l, Unpermuted(i, d));
      UnpermutedInBounds(i, d, ShapeOf(l));
      forall k: nat | k < Rank(l) ensures Term(r, i, k) == Term(l, Unpermuted(i, d), k) {
        PermuteTerm(l, d, i, k);
      }
      ContractEqual(r, i, l, Unpermuted(i, d), Rank(l));
    }
    Extensional(Dense(r), w);
  }

  lemma TransposeEntry(l: Lora, x: nat, y: nat)
    requires IsPermutation(FLIP, 2) && Dims(l) == 2 && InBounds([x, y], PermutedShape(ShapeOf(l), FLIP))
    ensures var r := TransposedFactors(l);
      InBounds([x, y], ShapeOf(r)) && At(Dense(r), [x, y]) == At(PermuteT(Dense(l), FLIP), [x, y])
  {
    hide Dense, PermuteT, Prod;
    var r := TransposedFactors(l);
    FlipShape(ShapeOf(l));
    assert ShapeOf(r) == PermutedShape(ShapeOf(l), FLIP);
    SwapIndex(x, y);
    PermuteAt(Dense(l), FLIP, [x, y]);
    DenseAt(r, [x, y]);
    DenseAt(l, [y, x]);
    forall k: nat | k < Rank(l) ensures Term(r, [x, y], k) == Term(l, [y, x], k) {
      TransposeTerm(l, x, y, k);
    }
    ContractEqual(r, [x, y], l, [y, x], Rank(l));
  }

  lemma TransposeMatrixMeaning(l: Lora)
    requires Dims(l) == 2
    ensures IsPermutation(FLIP, 2) && Dense(TransposedFactors(l)) == PermuteT(Dense(l), FLIP)
  {
    hide Dense, PermuteT, Prod;
    var r := TransposedFactors(l);
    var w := PermuteT(Dense(l), FLIP);
    assert ShapeOf(r) == w.shape by { FlipShape(ShapeOf(l)); }
    forall i | InBounds(i, w.shape) ensures At(Dense(r), i) == At(w, i) {
      var x, y := i[0], i[1];
      assert i == [x, y];
      TransposeEntry(l, x, y);
    }
    Extensional(Dense(r), w);
  }

  /** Permuting the factors permutes the product, for every list of axes torch accepts; axes from
      n up are accepted by the factors although torch refuses them on the product. */
  lemma PermuteMeaning(l: Lora, dims: seq<int>)
    requires Broadcasts(l) && Permute(l, dims).Success?
    ensures var r := Permute(l, dims).value;
      && Broadcasts(r) && Rank(r) == Rank(l)
      && (TorchPermute(Dense(l), dims) == Success(Dense(r)) <==> forall k :: 0 <= k < |dims| ==> dims[k] < Dims(l))
  {
    hide Dense, PermuteT, PermutedShape, Prod;
    var n := Dims(l);
    var d := FromEnd(dims, n);
    FromEndAxes(dims, n);
    var ax := NormalAxes(d, n);
    if d[|d| - 1] == -1 {
      PermuteBMeaning(l, ax);
      assert Permute(l, dims).value == PermutedB(l, ax);
    } else {
      assert ax == FLIP;
      TransposeMatrixMeaning(l);
      assert Permute(l, dims).value == TransposedFactors(l);
    }
  }

  /** A permutation is accepted exactly when its axes, counted from the end, are distinct axes and either the
      last one stays where A has no leading axes, or it is the exchange of the axes of a matrix. */
  lemma PermuteAccepts(l: Lora, dims: seq<int>)
    ensures var d, n := FromEnd(dims, Dims(l)), Dims(l);
      Permute(l, dims).Success? <==> AxesOk(d, n) && (if d[n - 1] == -1 then AllOnes(LeadA(l)) else d == [-1, -2])
  {
    hide PermuteT, Prod;
    var d, n := FromEnd(dims, Dims(l)), Dims(l);
    if AxesOk(d, n) {
      var ax := NormalAxes(d, n);
      if d[n - 1] == -1 {
        assert PermutedShape(l.B.shape, ax)[n - 1] == Rank(l);
      } else if n == 2 && d[1] == -2 && d[0] == -1 {
        assert d == [-1, -2];
        assert ax[0] == 1 && ax[1] == 0;
        assert PermutedShape(l.B.shape, ax) == [l.B.shape[1], l.B.shape[0]];
        assert PermutedShape(l.A.shape, ax) == [l.A.shape[1], l.A.shape[0]];
      }
    }
  }

  // ---------- transpose ----------

  function Axes(n: nat): seq<int> { seq(n, k => k) }

  predicate AxisOk(d: int, n: nat) { 0 <= d + n && d < n }

  function SwappedAxes(n: nat, d0: int, d1: int): (r: seq<int>)
    requires AxisOk(d0, n) && AxisOk(d1, n)
    ensures |r| == n && forall k :: 0 <= k < n ==> 0 <= r[k] < n
  {
    var a, b := NormalAxis(d0, n), NormalAxis(d1, n);
    Axes(n)[a := b][b := a]
  }

  function Transpose(l: Lora, d0: int, d1: int): Result<Lora> {
    if AxisOk(d0, Dims(l)) && AxisOk(d1, Dims(l)) then Permute(l, SwappedAxes(Dims(l), d0, d1)) else Failure
  }

  /** The index with its entries at two axes exchanged. */
  function Swapped(i: seq<nat>, a: nat, b: nat): (r: seq<nat>)
    requires a < |i| && b < |i|
    ensures |r| == |i|
  {
    i[a := i[b]][b := i[a]]
  }

  lemma SwappedAxesAre(n: nat, d0: int, d1: int)
    requires AxisOk(d0, n) && AxisOk(d1, n)
    ensures var a, b := NormalAxis(d0, n), NormalAxis(d1, n); var dims := SwappedAxes(n, d0, d1);
      AxesOk(dims, n) && forall k :: 0 <= k < n ==> NormalAxes(dims, n)[k] == if k == a then b else if k == b then a else k
  {}

  /** Permuting with a swapped pair of axes exchanges two entries of every index. */
  lemma SwapAt(t: Tensor, ax: seq<nat>, a: nat, b: nat, i: Index)
    requires IsPermutation(ax, |t.shape|) && a < |t.shape| && b < |t.shape|
    requires forall k :: 0 <= k < |t.shape| ==> ax[k] == if k == a then b else if k == b then a else k
    requires InBounds(i, PermutedShape(t.shape, ax))
    ensures InBounds(Swapped(i, a, b), t.shape) && At(PermuteT(t, ax), i) == At(t, Swapped(i, a, b))
  {
    hide Dense, PermuteT;
    PermuteAt(t, ax, i);
    UnpermutedUnique(i, ax, Swapped(i, a, b));
  }

  /** transpose and swapaxes exchange two axes of the product. */
  lemma TransposeMeaning(l: Lora, d0: int, d1: int)
    requires Broadcasts(l) && Transpose(l, d0, d1).Success?
    ensures var r := Transpose(l, d0, d1).value; var a, b := NormalAxis(d0, Dims(l)), NormalAxis(d1, Dims(l));
      && Broadcasts(r) && ShapeOf(r) == Swapped(ShapeOf(l), a, b)
      && (forall i :: InBounds(i, ShapeOf(r)) ==>
            InBounds(Swapped(i, a, b), ShapeOf(l)) && At(Dense(r), i) == At(Dense(l), Swapped(i, a, b)))
  {
    hide Dense, PermuteT, Prod;
    var n := Dims(l);
    var a, b := NormalAxis(d0, n), NormalAxis(d1, n);
    var dims := SwappedAxes(n, d0, d1);
    var r := Permute(l, dims).value;
    PermuteMeaning(l, dims);
    SwappedAxesAre(n, d0, d1);
    var ax := NormalAxes(dims, n);
    assert Dense(r) == PermuteT(Dense(l), ax);
    assert PermutedShape(ShapeOf(l), ax) == Swapped(ShapeOf(l), a, b);
    forall i | InBounds(i, ShapeOf(r))
      ensures InBounds(Swapped(i, a, b), ShapeOf(l)) && At(Dense(r), i) == At(Dense(l), Swapped(i, a, b))
    {
      SwapAt(Dense(l), ax, a, b, i);
    }
  }

  // ---------- chains ----------

  datatype ViewOp = ReshapeOp(shape: seq<int>) | PermuteOp(dims: seq<int>) | TransposeOp(d0: int, d1: int)

  function Apply(l: Lora, op: ViewOp): Result<Lora> {
    match op
    case ReshapeOp(s) => Reshape(l, s)
    case PermuteOp(d) => Permute(l, d)
    case TransposeOp(d0, d1) => Transpose(l, d0, d1)
  }

  function TorchApply(t: Tensor, op: ViewOp): Result<Tensor> {
    match op
    case ReshapeOp(s) => TorchReshape(t, s)
    case PermuteOp(d) => TorchPermute(t, d)
    case TransposeOp(d0, d1) =>
      if AxisOk(d0, |t.shape|) && AxisOk(d1, |t.shape|) then TorchPermute(t, SwappedAxes(|t.shape|, d0, d1)) else Failure
  }

  function Run(l: Lora, ops: seq<ViewOp>): Result<Lora>
    decreases |ops|
  {
    if ops == [] then Success(l)
    else
      var r := Apply(l, ops[0]);
      if r.Failure? then Failure else Run(r.value, ops[1..])
  }

  function TorchRun(t: Tensor, ops: seq<ViewOp>): Result<Tensor>
    decreases |ops|
  {
    if ops == [] then Success(t)
    else
      var r := TorchApply(t, ops[0]);
      if r.Failure? then Failure else TorchRun(r.value, ops[1..])
  }

  /** The view of the factors is a view of the product: at most one inferred dimension and, with rank
      zero, the same number of entries; axes below the number of axes. */
  predicate Faithful(l: Lora, op: ViewOp)
    requires Apply(l, op).Success?
  {
    match op
    case ReshapeOp(s) => |Known(s)| >= |s| - 1 && SameCount(l, Apply(l, op).value)
    case PermuteOp(d) => forall k :: 0 <= k < |d| ==> d[k] < Dims(l)
    case TransposeOp(_, _) => true
  }

  /** An accepted view of the factors is that view of the product, or torch refuses it on the product. */
  lemma ViewMeaning(l: Lora, op: ViewOp)
    requires Broadcasts(l) && Apply(l, op).Success?
    ensures var r := Apply(l, op).value;
      && Broadcasts(r) && Rank(r) == Rank(l)
      && TorchApply(Dense(l), op) == if Faithful(l, op) then Success(Dense(r)) else Failure
  {
    hide Dense, Reshape, Permute, TorchReshape, PermuteT, Known, Prod;
    match op
    case ReshapeOp(s) =>
      ReshapeMeaning(l, s);
      if |Known(s)| >= |s| - 1 { ReshapeIsTorchReshape(l, s); } else { TwoInferred(Dense(l), s); }
    case PermuteOp(d) => PermuteMeaning(l, d);
    case TransposeOp(d0, d1) => PermuteMeaning(l, SwappedAxes(Dims(l), d0, d1));
  }

  lemma TwoInferred(t: Tensor, s: seq<int>)
    requires |Known(s)| < |s| - 1
    ensures TorchReshape(t, s).Failure?
  {}

  /** Every view of the chain is faithful where it is applied. */
  predicate ChainFaithful(l: Lora, ops: seq<ViewOp>)
    requires Run(l, ops).Success?
    decreases |ops|
  {
    ops == [] || (Faithful(l, ops[0]) && ChainFaithful(Apply(l, ops[0]).value, ops[1..]))
  }

  /** Any chain of views that the factors accept is the same chain on the product exactly when every view
      in it is faithful; otherwise torch refuses the chain on the product. */
  lemma {:induction false} ChainMeaning(l: Lora, ops: seq<ViewOp>)
    requires Broadcasts(l) && Run(l, ops).Success?
    ensures Broadcasts(Run(l, ops).value)
    ensures TorchRun(Dense(l), ops) == if ChainFaithful(l, ops) then Success(Dense(Run(l, ops).value)) else Failure
    decreases |ops|
  {
    hide Dense, Apply, TorchApply, Faithful, Broadcasts;
    if ops != [] {
      ViewMeaning(l, ops[0]);
      ChainMeaning(Apply(l, ops[0]).value, ops[1..]);
    }
  }
}
