/** Requests on which the factors and the product part ways. */
module LoraLimits {
  import opened Wrappers
  import opened Tensors
  import opened TensorOps
  import opened LoraTensor
  import opened LoraPermute
  import opened LoraSubscript
  import opened LoraSplit

  /** Axes 2 and 1 of a matrix: accepted by the factors, refused by torch. */
  lemma AxisBeyondMatrix(l: Lora)
    requires Broadcasts(l) && Dims(l) == 2
    ensures Permute(l, [2, 1]) == Success(l) && TorchPermute(Dense(l), [2, 1]).Failure?
  {
    hide Dense, PermuteT, Prod;
    assert FromEnd([2, 1], 2) == [0, -1] && AllOnes(LeadA(l));
    assert [2, 1][0] == 2;
    PermuteNothing(l.B);
  }

  lemma PermuteNothing(t: Tensor)
    requires |t.shape| == 2
    ensures TorchPermute(t, [0, -1]) == Success(t)
  {
    hide PermuteT, Prod, At;
    assert AxesOk([0, -1], 2) && NormalAxes([0, -1], 2) == [0, 1];
    var d: seq<nat> := [0, 1];
    assert PermutedShape(t.shape, d) == t.shape;
    forall i | InBounds(i, t.shape) ensures At(PermuteT(t, d), i) == At(t, i) {
      PermuteAt(t, d, i);
      assert Unpermuted(i, d) == i;
    }
    Extensional(PermuteT(t, d), t);
  }

  const SECOND := Slice(Some(1), Some(2), None)

  lemma SecondOnly(n: nat)
    ensures Resolve(SECOND, n) == Some(Range(if n >= 1 then 1 else n, if n >= 2 then 1 else 0, 1))
  {}

  lemma SecondOfFirstAxis(t: Tensor)
    requires |t.shape| > 2
    ensures TorchIndex(t, [SECOND]).Success?
    ensures TorchIndex(t, [SECOND]).value.shape == t.shape[0 := if t.shape[0] >= 2 then 1 else 0]
  {
    hide TorchIndex, PickT, Prod, Resolve, Source;
    FirstAxis(t, SECOND);
    SecondOnly(t.shape[0]);
    var r := Resolve(SECOND, t.shape[0]).value;
    NarrowSource(t.shape, 0, r.start, r.len, seq(|t.shape|, _ => 0));
  }

  /** The second of several positions, when A is shared by all of them: A is cut away. */
  lemma SliceLosesSharedA(l: Lora)
    requires Broadcasts(l) && Dims(l) > 2 && l.A.shape[0] == 1 && l.B.shape[0] >= 2
    ensures GetSlice(l, SECOND).Success? && !Broadcasts(GetSlice(l, SECOND).value)
  {
    hide TorchIndex, Prod;
    SecondOfFirstAxis(l.A);
    SecondOfFirstAxis(l.B);
    var r := GetSlice(l, SECOND).value;
    assert r.A.shape[0] == 0 && r.B.shape[0] == 1;
  }

  lemma AllFull(t: Tensor, ix: seq<PyIndex>)
    requires |ix| == |t.shape| && forall k :: 0 <= k < |ix| ==> ix[k] == FULL
    ensures TorchIndex(t, ix) == Success(t)
  {
    hide PickT, Prod, Resolve;
    var r := ResolveAll(Padded(ix, |t.shape|), t.shape);
    assert Padded(ix, |t.shape|) == ix;
    forall k | 0 <= k < |ix| ensures Resolve(ix[k], t.shape[k]) == Some(FullPicks(t.shape)[k]) { assert ix[k] == FULL; }
    assert r.Some?;
    forall k | 0 <= k < |ix| ensures r.value[k] == FullPicks(t.shape)[k] {
      assert Some(r.value[k]) == Some(FullPicks(t.shape)[k]);
    }
    assert r.value == FullPicks(t.shape);
    FullPickIdentity(t);
  }

  /** The same request as a tuple, when A has its own first axis: only B is cut. */
  lemma TupleCutsOnlyB(l: Lora)
    requires Broadcasts(l) && Dims(l) > 2 && l.A.shape[0] == l.B.shape[0] >= 2
    ensures GetTuple(l, [SECOND]).Success? && !Broadcasts(GetTuple(l, [SECOND]).value)
  {
    hide TorchIndex, Prod, PickT, ResolveAll;
    var n := Dims(l);
    var ix := Padded([SECOND], n);
    assert Padded(ix[..n - 1], n) == ix;
    SameRequest(l.B, ix[..n - 1], [SECOND]);
    AllFull(l.A, IndicesA(l, ix));
    SecondOfFirstAxis(l.B);
    var r := GetTuple(l, [SECOND]).value;
    assert r.A.shape[0] >= 2 && r.B.shape[0] == 1;
  }

  lemma SameRequest(t: Tensor, x: seq<PyIndex>, y: seq<PyIndex>)
    requires |x| <= |t.shape| && |y| <= |t.shape| && Padded(x, |t.shape|) == Padded(y, |t.shape|)
    ensures TorchIndex(t, x) == TorchIndex(t, y)
  {
    hide PickT;
  }

  // ---------- an empty share ----------

  /** One column, rank one: n positions that all stand for the entry `a`. */
  function Column(a: int, n: nat): (l: Lora)
    ensures Dims(l) == 3 && Rank(l) == 1 && l.A.shape == [1, 1, 1] && l.B.shape == [n, 1, 1]
    ensures Broadcasts(l) && ShapeOf(l) == [n, 1, 1]
  {
    assert Prod([1, 1]) == 1 && Prod([1]) == 1 && Prod([]) == 1 by { assert [1, 1][1..] == [1] && [1][1..] == []; }
    assert [n, 1, 1][1..] == [1, 1] && [1, 1, 1][1..] == [1, 1];
    RawLora(RawTensor([1, 1, 1], [a]), RawTensor([n, 1, 1], seq(n, _ => 1)))
  }

  const ORIGIN: Index := [0, 0, 0]

  lemma OriginAt(t: Tensor, n: nat)
    requires t.shape == [n, 1, 1] && n > 0
    ensures InBounds(ORIGIN, t.shape) && |t.data| > 0 && At(t, ORIGIN) == t.data[0]
  {
    var s := t.shape;
    assert s[1..] == [1, 1] && [1, 1][1..] == [1] && [1][1..] == [];
    assert ORIGIN[1..] == [0, 0] && [0, 0][1..] == [0] && [0][1..] == [];
    assert Flat([0], [1]) == 0;
    assert Flat([0, 0], [1, 1]) == 0;
  }

  /** The entry at the origin when both factors have one there. */
  lemma DenseOrigin(l: Lora, n: nat)
    requires Broadcasts(l) && Dims(l) == 3 && Rank(l) == 1 && n > 0 && l.B.shape == [n, 1, 1]
    requires l.A.shape == [1, 1, 1] || l.A.shape == [n, 1, 1]
    ensures InBounds(ORIGIN, ShapeOf(l)) && InBounds(ORIGIN, l.A.shape) && InBounds(ORIGIN, l.B.shape)
    ensures At(Dense(l), ORIGIN) == At(l.B, ORIGIN) * At(l.A, ORIGIN)
  {
    hide Dense, At, Prod;
    DenseAt(l, ORIGIN);
    assert IndexB(ORIGIN, 0) == ORIGIN && IndexA(ORIGIN, LeadA(l), 0) == ORIGIN;
    assert Contract(l, ORIGIN, 1) == Contract(l, ORIGIN, 0) + Term(l, ORIGIN, 0);
  }

  /** A column without positions, put before one of two positions: the first of these gets the entry of
      the column that has none. */
  lemma EmptyShareTakesOver(a: int, b: int)
    requires a != b
    ensures var ls := [Column(a, 0), Column(b, 2)]; var r := Cat(ls);
      r.Success? && Broadcasts(r.value) && AllJoinable(Denses(ls), 0) && TorchCat(Denses(ls), 0) != Success(Dense(r.value))
  {
    hide Column, Dense, At, Join, Prod;
    var x, y := Column(a, 0), Column(b, 2);
    var ls := [x, y];
    JoinTwo(x.A, y.A);
    JoinTwo(x.B, y.B);
    assert FactorsA(ls) == [x.A, y.A] && FactorsB(ls) == [x.B, y.B] && Denses(ls) == [Dense(x), Dense(y)];
    JoinTwo(Dense(x), Dense(y));
    JoinEmpty(x.B, y.B);
    JoinEmpty(Dense(x), Dense(y));
    var r := RawLora(Join(x.A, y.A, 0), y.B);
    assert Cat(ls) == Success(r);
    DenseOrigin(r, 2);
    DenseOrigin(y, 2);
    JoinAt(x.A, y.A, 0, ORIGIN);
    ColumnOrigin(a, 0);
    ColumnOrigin(b, 2);
  }

  lemma ColumnOrigin(a: int, n: nat)
    ensures var l := Column(a, n); At(l.A, ORIGIN) == a && (n > 0 ==> At(l.B, ORIGIN) == 1)
  {
    hide Prod, At;
    var l := Column(a, n);
    OriginAt(l.A, 1);
    if n > 0 { OriginAt(l.B, n); }
  }

  lemma JoinTwo(s: Tensor, t: Tensor)
    requires Joinable(s, t, 0)
    ensures AllJoinable([s, t], 0) && JoinAll([s, t], 0) == Join(s, t, 0)
  {
    hide Join;
    assert [s, t][1..] == [t];
    OneJoins(t, 0);
  }
}
