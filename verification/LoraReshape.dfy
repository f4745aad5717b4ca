/** Reshaping a factored tensor: -1 expansion, the factor shapes, and what the product becomes. */
module LoraReshape {
  import opened Wrappers
  import opened Tensors
  import opened TensorOps
  import opened LoraTensor

  function Ones(n: nat): (s: seq<int>)
    ensures |s| == n && forall k :: 0 <= k < n ==> s[k] == 1
  {
    seq(n, _ => 1)
  }

  /** Replaces every -1 by the quotient of the entry counts; fails where Python raises. */
  function Expand(s: seq<int>, count: nat): Option<seq<int>> {
    if -1 !in s then Some(s)
    else
      var m := IntProd(Known(s));
      if m == 0 || count % m != 0 then None else Some(Replace(s, count / m))
  }

  function Reshape(l: Lora, s: seq<int>): Result<Lora> {
    if |s| < 2 then Failure
    else
      var e := Expand(s, Prod(ShapeOf(l)));
      if e.None? || e.value[|s| - 1] != Cols(l) then Failure
      else
        var a := TorchReshape(l.A, Ones(|s| - 2) + [Rank(l), Cols(l)]);
        var b := TorchReshape(l.B, e.value[..|s| - 1] + [Rank(l)]);
        if a.Success? && b.Success? then Make(a.value, b.value) else Failure
  }

  lemma {:induction false} IntProdSign(s: seq<int>)
    requires AllNat(s)
    ensures IntProd(s) == Prod(AsShape(s)) >= 0
  {
    if s != [] {
      IntProdSign(s[1..]);
      assert AsShape(s)[1..] == AsShape(s[1..]);
    }
  }

  /** An accepted reshape never carries a negative dimension past the -1 expansion. */
  lemma ExpandedIsShape(l: Lora, s: seq<int>)
    requires Reshape(l, s).Success?
    ensures var e := Expand(s, Prod(ShapeOf(l))); e.Some? && |e.value| == |s| && AllNat(e.value)
  {
    hide Prod, IntProd, AsShape, ShapeOf, TorchReshape;
    var n, count := |s|, Prod(ShapeOf(l));
    var e := Expand(s, count).value;
    var sb := e[..n - 1] + [Rank(l)];
    assert TorchReshape(l.B, sb).Success?;
    assert e[n - 1] == Cols(l);
    hide Reshape;
    ExpandKeeps(s, count);
    forall k | 0 <= k < n ensures s[k] >= -1 {
      if k < n - 1 && s[k] != -1 { assert sb[k] == s[k]; }
    }
    ExpandIsNat(s, count);
  }

  lemma ExpandIsNat(s: seq<int>, count: nat)
    requires Expand(s, count).Some? && forall k :: 0 <= k < |s| ==> s[k] >= -1
    ensures AllNat(Expand(s, count).value)
  {
    hide IntProd, AsShape;
    if -1 in s {
      forall k | 0 <= k < |Known(s)| ensures Known(s)[k] >= 0 { assert Known(s)[k] in s; }
      IntProdSign(Known(s));
      assert count / IntProd(Known(s)) >= 0;
    }
  }

  /** The contraction in row-major terms: row of B's data against column of A's data. */
  function FlatContract(b: seq<int>, a: seq<int>, rank: nat, cols: nat, row: nat, col: nat, m: nat): int
    requires m <= rank && col < cols && |a| == rank * cols && (row + 1) * rank <= |b|
  {
    if m == 0 then 0
    else
      OffsetBound(m - 1, col, rank, cols);
      OffsetBound(row, m - 1, row + 1, rank);
      FlatContract(b, a, rank, cols, row, col, m - 1) + b[row * rank + (m - 1)] * a[(m - 1) * cols + col]
  }

  lemma {:induction false} OnesProd(s: Shape)
    ensures AllOnes(s) ==> Prod(s) == 1
    ensures Prod(s) == 1 ==> AllOnes(s)
  {
    if s != [] {
      OnesProd(s[1..]);
      UnitProduct(s[0], Prod(s[1..]));
      assert AllOnes(s) <==> s[0] == 1 && AllOnes(s[1..]) by {
        assert forall k :: 1 <= k < |s| ==> s[k] == s[1..][k - 1];
      }
    }
  }

  lemma UnitProduct(x: nat, y: nat)
    ensures x * y == 1 <==> x == 1 && y == 1
  {
    if x >= 2 && y >= 1 { MulMonotone(1, y, x); assert x * 1 <= x * y; }
  }

  lemma {:induction false} OnesFlat(s: Shape, i: Index)
    requires AllOnes(s) && |i| == |s|
    ensures InBounds(Stretch(i, s), s) && Flat(Stretch(i, s), s) == 0
  {
    if s != [] {
      assert Stretch(i, s)[1..] == Stretch(i[1..], s[1..]);
      OnesFlat(s[1..], i[1..]);
    }
  }

  lemma PairProd(x: nat, y: nat)
    ensures Prod([x, y]) == x * y && Prod([x]) == x
  {
    assert [x, y][1..] == [y] && [y][1..] == [] && [x][1..] == [];
    assert Prod([y]) == y * Prod([]) == y;
    assert Prod([x]) == x * Prod([]) == x;
  }

  lemma PairFlat(i: nat, j: nat, x: nat, y: nat)
    requires i < x && j < y
    ensures Flat([i, j], [x, y]) == i * y + j && Flat([j], [y]) == j
  {
    assert [x, y][1..] == [y] && [y][1..] == [] && [i, j][1..] == [j] && [j][1..] == [];
    PairProd(x, y);
    PairProd(y, x);
  }

  /** Sizes of the factors' data in terms of rows, rank and columns. */
  lemma FactorSizes(l: Lora)
    requires AllOnes(LeadA(l))
    ensures |l.A.data| == Rank(l) * Cols(l)
    ensures |l.B.data| == Prod(l.B.shape[..Dims(l) - 1]) * Rank(l)
    ensures Prod(ShapeOf(l)) == Prod(l.B.shape[..Dims(l) - 1]) * Cols(l)
  {
    hide Prod;
    var n := Dims(l);
    assert l.A.shape == LeadA(l) + [Rank(l), Cols(l)];
    assert l.B.shape == l.B.shape[..n - 1] + [Rank(l)];
    ProdConcat(LeadA(l), [Rank(l), Cols(l)]);
    OnesProd(LeadA(l));
    PairProd(Rank(l), Cols(l));
    PairProd(Cols(l), Rank(l));
    ProdConcat(l.B.shape[..n - 1], [Rank(l)]);
    ProdConcat(l.B.shape[..n - 1], [Cols(l)]);
  }

  lemma FlatRow(l: Lora, i: Index)
    requires AllOnes(LeadA(l)) && InBounds(i, ShapeOf(l))
    ensures |l.A.data| == Rank(l) * Cols(l)
    ensures InBounds(i[..Dims(l) - 1], l.B.shape[..Dims(l) - 1])
    ensures var row := Flat(i[..Dims(l) - 1], l.B.shape[..Dims(l) - 1]); var col := i[Dims(l) - 1];
      && col < Cols(l) && (row + 1) * Rank(l) <= |l.B.data|
      && Flat(i, ShapeOf(l)) == row * Cols(l) + col
  {
    hide Prod;
    var n := Dims(l);
    var rows := l.B.shape[..n - 1];
    FactorSizes(l);
    assert InBounds(i[..n - 1], rows) by {
      forall k | 0 <= k < n - 1 ensures i[k] < rows[k] { assert i[k] < ShapeOf(l)[k]; }
    }
    var row, col := Flat(i[..n - 1], rows), i[n - 1];
    assert col < Cols(l) by { assert i[n - 1] < ShapeOf(l)[n - 1]; }
    MulMonotone(row + 1, Prod(rows), Rank(l));
    FlatConcat(i[..n - 1], [col], rows, [Cols(l)]);
    assert i == i[..n - 1] + [col];
    PairProd(Cols(l), 0);
    PairFlat(0, col, 1, Cols(l));
  }

  lemma {:induction false} FlatDense(l: Lora, i: Index, m: nat)
    requires AllOnes(LeadA(l)) && InBounds(i, ShapeOf(l)) && m <= Rank(l)
    requires Broadcasts(l)
    ensures |l.A.data| == Rank(l) * Cols(l)
    ensures InBounds(i[..Dims(l) - 1], l.B.shape[..Dims(l) - 1])
    ensures var row := Flat(i[..Dims(l) - 1], l.B.shape[..Dims(l) - 1]); var col := i[Dims(l) - 1];
      && col < Cols(l) && (row + 1) * Rank(l) <= |l.B.data|
      && Flat(i, ShapeOf(l)) == row * Cols(l) + col
      && Contract(l, i, m) == FlatContract(l.B.data, l.A.data, Rank(l), Cols(l), row, col, m)
  {
    hide Prod, Flat, InBounds, ShapeOf, Broadcasts, AllOnes;
    FlatRow(l, i);
    if m > 0 {
      FlatDense(l, i, m - 1);
      FlatTerm(l, i, m - 1);
    }
  }

  lemma FlatTerm(l: Lora, i: Index, k: nat)
    requires AllOnes(LeadA(l)) && InBounds(i, ShapeOf(l)) && k < Rank(l)
    requires Broadcasts(l)
    requires InBounds(i[..Dims(l) - 1], l.B.shape[..Dims(l) - 1])
    ensures InBounds(IndexB(i, k), l.B.shape) && InBounds(IndexA(i, LeadA(l), k), l.A.shape)
    ensures Flat(IndexB(i, k), l.B.shape) == Flat(i[..Dims(l) - 1], l.B.shape[..Dims(l) - 1]) * Rank(l) + k
    ensures Flat(IndexA(i, LeadA(l), k), l.A.shape) == k * Cols(l) + i[Dims(l) - 1]
  {
    hide Prod, Flat;
    var n := Dims(l);
    FactorIndices(l, i, k);
    assert l.B.shape == l.B.shape[..n - 1] + [Rank(l)];
    PairFlat(0, k, 1, Rank(l));
    PairProd(Rank(l), 0);
    FlatConcat(i[..n - 1], [k], l.B.shape[..n - 1], [Rank(l)]);
    assert l.A.shape == LeadA(l) + [Rank(l), Cols(l)];
    assert i[n - 1] < Cols(l) by { assert i[n - 1] < ShapeOf(l)[n - 1]; }
    OnesFlat(LeadA(l), i[..n - 2]);
    PairFlat(k, i[n - 1], Rank(l), Cols(l));
    FlatConcat(Stretch(i[..n - 2], LeadA(l)), [k, i[n - 1]], LeadA(l), [Rank(l), Cols(l)]);
  }

  lemma ReshapedShape(l: Lora, s: seq<int>)
    requires Reshape(l, s).Success?
    ensures var r := Reshape(l, s).value; var e := Expand(s, Prod(ShapeOf(l))).value;
      && |e| == |s| && AllNat(e) && ShapeOf(r) == AsShape(e) && Rank(r) == Rank(l) && Cols(r) == Cols(l)
      && r.A.data == l.A.data && r.B.data == l.B.data && AllOnes(LeadA(r)) && Broadcasts(r)
  {
    hide Prod;
    ExpandedIsShape(l, s);
    var r := Reshape(l, s).value;
    var e := Expand(s, Prod(ShapeOf(l))).value;
    var sb := e[..|s| - 1] + [Rank(l)];
    assert AllNat(sb);
    assert r.B.shape == AsShape(sb);
    var sa := Ones(|s| - 2) + [Rank(l), Cols(l)];
    assert AllNat(sa);
    assert r.A.shape == AsShape(sa);
    forall k | 0 <= k < Dims(r) - 2 ensures r.A.shape[k] == 1 { assert LeadA(r)[k] == 1; }
  }

  lemma ReshapedFactors(l: Lora, s: seq<int>)
    requires Rank(l) > 0 && Reshape(l, s).Success?
    ensures Cols(l) > 0 ==> AllOnes(LeadA(l))
  {
    hide Prod, Reshape;
    ReshapedShape(l, s);
    FactorSizes(Reshape(l, s).value);
    if Cols(l) > 0 {
      assert l.A.shape == LeadA(l) + [Rank(l), Cols(l)];
      ProdConcat(LeadA(l), [Rank(l), Cols(l)]);
      PairProd(Rank(l), Cols(l));
      CancelProduct(Prod(LeadA(l)), Rank(l) * Cols(l));
      OnesProd(LeadA(l));
    }
  }

  lemma CancelProduct(x: nat, y: nat)
    requires x * y == y
    ensures y > 0 ==> x == 1
  {
    if x >= 2 && y > 0 { MulMonotone(2, x, y); }
  }

  /** With a positive rank the product keeps its entries in the same row-major order. */
  lemma ReshapeKeepsData(l: Lora, s: seq<int>)
    requires Broadcasts(l) && Rank(l) > 0 && Reshape(l, s).Success?
    ensures Broadcasts(Reshape(l, s).value) && Dense(Reshape(l, s).value).data == Dense(l).data
  {
    hide Dense, Prod, Reshape;
    ReshapedShape(l, s);
    ReshapedFactors(l, s);
    var r := Reshape(l, s).value;
    FactorSizes(r);
    if Cols(l) == 0 {
      assert l.B.shape[..Dims(l) - 1] + [0] == ShapeOf(l);
      ProdConcat(l.B.shape[..Dims(l) - 1], [0]);
      PairProd(0, 0);
      assert Dense(l).data == [] == Dense(r).data;
    } else {
      FactorSizes(l);
      var rowsL, rowsR := Prod(l.B.shape[..Dims(l) - 1]), Prod(r.B.shape[..Dims(r) - 1]);
      CancelCommon(rowsL, rowsR, Rank(l));
      forall p | 0 <= p < |Dense(l).data| ensures Dense(l).data[p] == Dense(r).data[p] {
        FlatEntry(l, p, p / Cols(l), p % Cols(l));
        FlatEntry(r, p, p / Cols(l), p % Cols(l));
      }
      assert Dense(l).data == Dense(r).data;
    }
  }

  lemma CancelCommon(x: nat, y: nat, z: nat)
    requires x * z == y * z && z > 0
    ensures x == y
  {
    MulMonotone(x + 1, y, z);
    MulMonotone(y + 1, x, z);
    MulMonotone(x, y, z);
    MulMonotone(y, x, z);
  }

  lemma FlatEntry(l: Lora, p: nat, row: nat, col: nat)
    requires Broadcasts(l) && AllOnes(LeadA(l)) && Cols(l) > 0 && p < Prod(ShapeOf(l))
    requires row == p / Cols(l) && col == p % Cols(l)
    ensures |l.A.data| == Rank(l) * Cols(l) && (row + 1) * Rank(l) <= |l.B.data| && col < Cols(l)
    ensures Dense(l).data[p] == FlatContract(l.B.data, l.A.data, Rank(l), Cols(l), row, col, Rank(l))
  {
    hide Dense, Prod;
    var i := Unflat(p, ShapeOf(l));
    FlatUnflat(p, ShapeOf(l));
    DenseAt(l, i);
    FlatDense(l, i, Rank(l));
    DivModUnique(Flat(i[..Dims(l) - 1], l.B.shape[..Dims(l) - 1]), i[Dims(l) - 1], Cols(l));
  }

  /** A product over no terms is zero everywhere. */
  lemma RankZeroIsZero(l: Lora, p: nat)
    requires Broadcasts(l) && Rank(l) == 0 && p < Prod(ShapeOf(l))
    ensures Dense(l).data[p] == 0
  {
    hide Dense, Prod;
    var i := Unflat(p, ShapeOf(l));
    FlatUnflat(p, ShapeOf(l));
    DenseAt(l, i);
  }

  /** Empty factors can be reshaped to any number of rows, so the counts matter when the rank is zero. */
  predicate SameCount(l: Lora, r: Lora) {
    Rank(l) > 0 || Prod(ShapeOf(r)) == Prod(ShapeOf(l))
  }

  /** Reshaping the factors: the rank is kept, the dimensions are the requested ones, and the product has
      the same entries in the same row-major order exactly when the rank is positive or the request has as
      many entries as the product. */
  lemma ReshapeMeaning(l: Lora, s: seq<int>)
    requires Broadcasts(l) && Reshape(l, s).Success?
    ensures var r := Reshape(l, s).value;
      && Broadcasts(r) && Rank(r) == Rank(l)
      && |ShapeOf(r)| == |s| && (forall k :: 0 <= k < |s| && s[k] != -1 ==> ShapeOf(r)[k] == s[k])
      && (Dense(r).data == Dense(l).data <==> SameCount(l, r))
  {
    hide Dense, Prod, Reshape, Expand, Known;
    ReshapedShape(l, s);
    ReshapedCount(l, s);
    var r := Reshape(l, s).value;
    if Rank(l) > 0 {
      ReshapeKeepsData(l, s);
    } else if Prod(ShapeOf(r)) == Prod(ShapeOf(l)) {
      forall p | 0 <= p < Prod(ShapeOf(l)) ensures Dense(l).data[p] == Dense(r).data[p] {
        RankZeroIsZero(l, p);
        RankZeroIsZero(r, p);
      }
      assert Dense(l).data == Dense(r).data;
    } else {
      assert |Dense(r).data| != |Dense(l).data|;
    }
  }

  /** With at most one -1, reshaping the factors is torch's reshape of the product, or torch refuses it;
      the latter only with rank zero and another number of entries. */
  lemma ReshapeIsTorchReshape(l: Lora, s: seq<int>)
    requires Broadcasts(l) && |Known(s)| >= |s| - 1 && Reshape(l, s).Success?
    ensures var r := Reshape(l, s).value;
      && Broadcasts(r)
      && TorchReshape(Dense(l), s) == if SameCount(l, r) then Success(Dense(r)) else Failure
  {
    hide Dense, TorchReshape, Reshape, Expand, Known, Prod, IntProd;
    ReshapeMeaning(l, s);
    ReshapedShape(l, s);
    ReshapedCount(l, s);
    var r := Reshape(l, s).value;
    TorchReshapeIs(Dense(l), s, AsShape(Expand(s, Prod(ShapeOf(l))).value));
    if Rank(l) > 0 { assert |Dense(r).data| == |Dense(l).data|; }
  }

  lemma ExpandKeeps(s: seq<int>, count: nat)
    requires Expand(s, count).Some?
    ensures var e := Expand(s, count).value;
      |e| == |s| && forall k :: 0 <= k < |s| && s[k] != -1 ==> e[k] == s[k]
    ensures -1 !in s ==> Expand(s, count).value == s
    ensures -1 in s ==> var m := IntProd(Known(s)); m != 0 && count % m == 0 && Expand(s, count).value == Replace(s, count / m)
  {
    hide IntProd, Known;
  }

  lemma KnownNat(s: seq<int>)
    requires forall k :: 0 <= k < |s| && s[k] != -1 ==> s[k] >= 0
    ensures AllNat(Known(s)) && IntProd(Known(s)) >= 0
  {
    hide IntProd;
    forall k | 0 <= k < |Known(s)| ensures Known(s)[k] >= 0 { assert Known(s)[k] in s; }
    IntProdSign(Known(s));
  }

  /** The expansion of an accepted request is a shape. */
  lemma ReshapedCount(l: Lora, s: seq<int>)
    requires Reshape(l, s).Success?
    ensures var e := Expand(s, Prod(ShapeOf(l)));
      && e.Some? && |e.value| == |s| && AllNat(e.value)
      && (forall k :: 0 <= k < |s| && s[k] != -1 ==> e.value[k] == s[k])
      && (-1 !in s ==> e.value == s)
      && (-1 in s ==>
            var m := IntProd(Known(s)); m > 0 && Prod(ShapeOf(l)) % m == 0 && e.value == Replace(s, Prod(ShapeOf(l)) / m))
  {
    hide Reshape, Prod, IntProd, Known, Expand;
    ExpandedIsShape(l, s);
    ExpandKeeps(s, Prod(ShapeOf(l)));
    var e := Expand(s, Prod(ShapeOf(l))).value;
    forall k | 0 <= k < |s| && s[k] != -1 ensures s[k] >= 0 { assert e[k] == s[k]; }
    KnownNat(s);
  }

  /** torch's reshape of a tensor when the expanded dimensions are known. */
  lemma TorchReshapeIs(t: Tensor, s: seq<int>, e: Shape)
    requires |s| == |e| && |Known(s)| >= |s| - 1
    requires -1 !in s ==> AllNat(s) && AsShape(s) == e
    requires -1 in s ==> var m := IntProd(Known(s));
      m > 0 && |t.data| % m == 0 && AllNat(Replace(s, |t.data| / m)) && AsShape(Replace(s, |t.data| / m)) == e
    ensures TorchReshape(t, s) == if Prod(e) == |t.data| then Success(RawTensor(e, t.data)) else Failure
  {
    hide Prod, IntProd;
    assert forall k :: 0 <= k < |s| ==> s[k] >= -1 by {
      forall k | 0 <= k < |s| ensures s[k] >= -1 {
        if -1 in s && s[k] != -1 { assert Replace(s, |t.data| / IntProd(Known(s)))[k] == s[k]; }
      }
    }
  }

  lemma RowsFit(l: Lora, e: seq<int>)
    requires Cols(l) > 0 && AllOnes(LeadA(l)) && |e| >= 2 && AllNat(e) && e[|e| - 1] == Cols(l)
    requires Prod(AsShape(e)) == Prod(ShapeOf(l))
    ensures var b := TorchReshape(l.B, e[..|e| - 1] + [Rank(l)]);
      b.Success? && |b.value.shape| == |e| && b.value.shape[|e| - 1] == Rank(l)
  {
    hide Prod;
    var n := |e|;
    var s, sb := AsShape(e), e[..n - 1] + [Rank(l)];
    assert s == s[..n - 1] + [Cols(l)];
    ProdConcat(s[..n - 1], [Cols(l)]);
    ProdConcat(s[..n - 1], [Rank(l)]);
    PairProd(Cols(l), 0);
    PairProd(Rank(l), 0);
    FactorSizes(l);
    CancelCommon(Prod(s[..n - 1]), Prod(l.B.shape[..Dims(l) - 1]), Cols(l));
    assert AllNat(sb) && AsShape(sb) == s[..n - 1] + [Rank(l)];
  }

  lemma SharedAFits(l: Lora, n: nat)
    requires AllOnes(LeadA(l)) && n >= 2
    ensures var a := TorchReshape(l.A, Ones(n - 2) + [Rank(l), Cols(l)]);
      a.Success? && |a.value.shape| == n && a.value.shape[n - 2] == Rank(l)
  {
    hide Prod;
    var sa := Ones(n - 2) + [Rank(l), Cols(l)];
    assert AllNat(Ones(n - 2)) && AllNat(sa);
    var ones := AsShape(Ones(n - 2));
    assert AsShape(sa) == ones + [Rank(l), Cols(l)];
    ProdConcat(ones, [Rank(l), Cols(l)]);
    PairProd(Rank(l), Cols(l));
    OnesProd(ones);
    FactorSizes(l);
  }

  /** What torch makes of the request on the product, in terms of the expansion the factors use. */
  lemma TorchExpands(l: Lora, s: seq<int>)
    requires Broadcasts(l) && |Known(s)| >= |s| - 1
    requires TorchReshape(Dense(l), s).Success?
    ensures var e := Expand(s, Prod(ShapeOf(l)));
      e.Some? && |e.value| == |s| && AllNat(e.value) && AsShape(e.value) == TorchReshape(Dense(l), s).value.shape
  {}

  lemma ReshapeCompletes(l: Lora, s: seq<int>)
    requires Broadcasts(l) && Rank(l) > 0 && Cols(l) > 0
    requires |s| >= 2 && |Known(s)| >= |s| - 1 && AllOnes(LeadA(l))
    requires var w := TorchReshape(Dense(l), s); w.Success? && w.value.shape[|s| - 1] == Cols(l)
    ensures Reshape(l, s).Success?
  {
    hide Dense, Prod, TorchReshape, Known, Expand;
    TorchExpands(l, s);
    RowsFit(l, Expand(s, Prod(ShapeOf(l))).value);
    SharedAFits(l, |s|);
  }

  /** When the product has entries, the factors can be reshaped exactly when A is shared by all
      leading positions and the product itself can be reshaped without touching its last axis. */
  lemma ReshapeAccepts(l: Lora, s: seq<int>)
    requires Broadcasts(l) && Rank(l) > 0 && Cols(l) > 0
    requires |s| >= 2 && |Known(s)| >= |s| - 1
    ensures Reshape(l, s).Success? <==>
      AllOnes(LeadA(l)) && var w := TorchReshape(Dense(l), s); w.Success? && w.value.shape[|s| - 1] == Cols(l)
  {
    hide Dense;
    var w := TorchReshape(Dense(l), s);
    if Reshape(l, s).Success? {
      ReshapeIsTorchReshape(l, s);
      ReshapedShape(l, s);
      ReshapedFactors(l, s);
    } else if AllOnes(LeadA(l)) && w.Success? && w.value.shape[|s| - 1] == Cols(l) {
      ReshapeCompletes(l, s);
    }
  }

  lemma TorchReshapeFits(t: Tensor, s: seq<int>)
    requires AllNat(s)
    ensures TorchReshape(t, s).Success? <==> Prod(AsShape(s)) == |t.data|
    ensures TorchReshape(t, s).Success? ==> TorchReshape(t, s).value.shape == AsShape(s)
  {
    hide Prod, TorchReshape;
  }

  lemma SharedSize(l: Lora, n: nat)
    requires n >= 2
    ensures var sa := Ones(n - 2) + [Rank(l), Cols(l)];
      && AllNat(sa) && |AsShape(sa)| == n && AsShape(sa)[n - 2] == Rank(l)
      && (Prod(AsShape(sa)) == |l.A.data| <==> Rank(l) * Cols(l) == 0 || AllOnes(LeadA(l)))
  {
    hide Prod;
    var sa := Ones(n - 2) + [Rank(l), Cols(l)];
    assert AllNat(Ones(n - 2)) && AllNat(sa);
    var ones := AsShape(Ones(n - 2));
    assert AsShape(sa) == ones + [Rank(l), Cols(l)];
    ProdConcat(ones, [Rank(l), Cols(l)]);
    OnesProd(ones);
    PairProd(Rank(l), Cols(l));
    assert l.A.shape == LeadA(l) + [Rank(l), Cols(l)];
    ProdConcat(LeadA(l), [Rank(l), Cols(l)]);
    OnesProd(LeadA(l));
    TimesItself(Prod(LeadA(l)), Rank(l) * Cols(l));
  }

  lemma TimesItself(x: nat, y: nat)
    ensures 1 * y == x * y <==> y == 0 || x == 1
  {
    if y > 0 && x * y == 1 * y { CancelCommon(x, 1, y); }
  }

  lemma RowSize(l: Lora, e: seq<int>)
    requires AllNat(e) && e != []
    ensures var n := |e|; var sb := e[..n - 1] + [Rank(l)];
      && AllNat(sb) && |AsShape(sb)| == n && AsShape(sb)[n - 1] == Rank(l)
      && (Prod(AsShape(sb)) == |l.B.data| <==>
            Rank(l) == 0 || Prod(AsShape(e)[..n - 1]) == Prod(l.B.shape[..Dims(l) - 1]))
  {
    hide Prod;
    var n, m := |e|, Dims(l);
    var sb := e[..n - 1] + [Rank(l)];
    assert AsShape(sb) == AsShape(e)[..n - 1] + [Rank(l)];
    ProdConcat(AsShape(e)[..n - 1], [Rank(l)]);
    assert l.B.shape == l.B.shape[..m - 1] + [Rank(l)];
    ProdConcat(l.B.shape[..m - 1], [Rank(l)]);
    PairProd(Rank(l), 0);
    var x, y := Prod(AsShape(e)[..n - 1]), Prod(l.B.shape[..m - 1]);
    if Rank(l) > 0 && x * Rank(l) == y * Rank(l) { CancelCommon(x, y, Rank(l)); }
  }

  /** For all factors and requests: accepted exactly when the expanded request is a shape with the same
      last axis, A is empty or shared by all leading positions, and B is empty or has as many rows as the
      request. */
  lemma ReshapeAcceptsExactly(l: Lora, s: seq<int>)
    ensures Reshape(l, s).Success? <==>
      && |s| >= 2
      && var e := Expand(s, Prod(ShapeOf(l)));
      && e.Some? && |e.value| == |s| && AllNat(e.value) && e.value[|s| - 1] == Cols(l)
      && (Rank(l) * Cols(l) == 0 || AllOnes(LeadA(l)))
      && (Rank(l) == 0 || Prod(AsShape(e.value)[..|s| - 1]) == Prod(l.B.shape[..Dims(l) - 1]))
  {
    hide Prod, TorchReshape, Expand, Known, IntProd;
    if Reshape(l, s).Success? { ExpandedIsShape(l, s); }
    if |s| >= 2 && Expand(s, Prod(ShapeOf(l))).Some? {
      var e := Expand(s, Prod(ShapeOf(l))).value;
      if |e| == |s| && AllNat(e) && e[|s| - 1] == Cols(l) {
        SharedSize(l, |s|);
        RowSize(l, e);
        TorchReshapeFits(l.A, Ones(|s| - 2) + [Rank(l), Cols(l)]);
        TorchReshapeFits(l.B, e[..|s| - 1] + [Rank(l)]);
      } else {
        ExpandKeeps(s, Prod(ShapeOf(l)));
      }
    }
  }

  // ---------- how empty factors grow ----------

  lemma NoneInferred(s: seq<int>, count: nat)
    requires -1 !in s
    ensures Expand(s, count) == Some(s)
  {}

  lemma EmptyFits(t: Tensor, x: nat, y: nat)
    requires t.data == [] && (x == 0 || y == 0)
    ensures TorchReshape(t, [x, y]) == Success(RawTensor([x, y], []))
  {
    hide TorchReshape, Prod;
    var s: seq<int> := [x, y];
    assert AsShape(s) == [x, y];
    PairProd(x, y);
  }

  /** The only matrix of rank zero with these numbers of rows and columns. */
  function ZeroMatrix(n: nat, cols: nat): (l: Lora)
    ensures ShapeOf(l) == [n, cols] && Broadcasts(l) && Rank(l) == 0
    ensures l.A.data == [] && l.B.data == []
  {
    PairProd(0, cols);
    PairProd(n, 0);
    RawLora(RawTensor([0, cols], []), RawTensor([n, 0], []))
  }

  /** It can be reshaped to any other number of rows. */
  lemma RankZeroGrows(n: nat, m: nat, cols: nat)
    ensures Reshape(ZeroMatrix(n, cols), [m, cols]) == Success(ZeroMatrix(m, cols))
  {
    hide Prod, TorchReshape, Expand, AsShape, Broadcasts, Reshape, Ones;
    var l := ZeroMatrix(n, cols);
    var s: seq<int> := [m, cols];
    NoneInferred(s, Prod(ShapeOf(l)));
    EmptyFits(l.A, 0, cols);
    EmptyFits(l.B, m, 0);
    assert ShapeOf(l)[1] == cols;
    TwoDimensions(l, m, cols);
  }

  lemma TwoDimensions(l: Lora, m: int, cols: int)
    requires Expand([m, cols], Prod(ShapeOf(l))) == Some([m, cols]) && cols == Cols(l)
    ensures var a, b := TorchReshape(l.A, [Rank(l), cols]), TorchReshape(l.B, [m, Rank(l)]);
      Reshape(l, [m, cols]) == if a.Success? && b.Success? then Make(a.value, b.value) else Failure
  {
    hide Prod, TorchReshape, Expand, ShapeOf;
    assert Ones(0) + [Rank(l), cols] == [Rank(l), cols] && [m, cols][..1] + [Rank(l)] == [m, Rank(l)];
  }
}
