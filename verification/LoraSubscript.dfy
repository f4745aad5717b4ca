/** The three forms of subscript a factored tensor accepts, and when each means the same subscript
    of the product. */
module LoraSubscript {
  import opened Wrappers
  import opened Tensors
  import opened TensorOps
  import opened LoraTensor
  import opened LoraIndexing

  // ---------- a tuple of ints and slices ----------

  /** The subscript given to A: ints wrap around A's own axis lengths, slices on leading axes are
      dropped, the rank axis is kept whole, the last subscript picks columns. */
  function IndicesA(l: Lora, ix: seq<PyIndex>): (r: seq<PyIndex>)
    requires |ix| == Dims(l)
    requires forall k :: 0 <= k < Dims(l) - 2 && ix[k].Int? ==> l.A.shape[k] > 0
    ensures |r| == Dims(l)
    ensures forall k :: 0 <= k < Dims(l) - 2 ==> r[k] == if ix[k].Int? then Int(ix[k].j % l.A.shape[k]) else FULL
    ensures r[Dims(l) - 2] == FULL && r[Dims(l) - 1] == ix[Dims(l) - 1]
  {
    seq(Dims(l) - 2, k requires 0 <= k < Dims(l) - 2 => if ix[k].Int? then Int(ix[k].j % l.A.shape[k]) else FULL)
    + [FULL, ix[Dims(l) - 1]]
  }

  function GetTuple(l: Lora, idx: seq<PyIndex>): Result<Lora> {
    var n := Dims(l);
    var ix := Padded(idx, n);
    if |idx| == 0 || |idx| > n then Failure
    else if exists k :: 0 <= k < n - 2 && ix[k].Int? && l.A.shape[k] == 0 then Failure  // ZeroDivisionError
    else
      var a, b := TorchIndex(l.A, IndicesA(l, ix)), TorchIndex(l.B, ix[..n - 1]);
      if a.Success? && b.Success? then Make(a.value, b.value) else Failure
  }

  /** Not both of the last two subscripts are ints, and a leading slice that drops or thins
      positions falls on an axis that A does not have (length 1). */
  predicate TupleSound(l: Lora, ix: seq<PyIndex>)
    requires |ix| == Dims(l)
  {
    && !(ix[Dims(l) - 2].Int? && ix[Dims(l) - 1].Int?)
    && forall k :: 0 <= k < Dims(l) - 2 && ix[k].Slice? ==>
         l.A.shape[k] == 1 ||
         (var p := Resolve(ix[k], l.B.shape[k]); p.Some? && p.value.Range? && p.value.len == l.B.shape[k])
  }

  /** Number of axes left by a list of picks that agree on which axes they remove. */
  lemma {:induction false} SameKinds(p: seq<Pick>, q: seq<Pick>)
    requires |p| == |q| && forall k :: 0 <= k < |p| ==> p[k].One? == q[k].One?
    ensures |PickedShape(p)| == |PickedShape(q)|
  {
    if p != [] {
      assert forall k :: 0 <= k < |p| - 1 ==> p[1..][k] == p[k + 1] && q[1..][k] == q[k + 1];
      SameKinds(p[1..], q[1..]);
    }
  }

  lemma PickedAt(p: seq<Pick>, k: nat)
    requires k < |p| && p[k].Range?
    ensures var c := |PickedShape(p[..k])|; c < |PickedShape(p)| && PickedShape(p)[c] == p[k].len
  {
    assert p == p[..k] + p[k..];
    PickedShapeConcat(p[..k], p[k..]);
  }

  /** What torch resolves the two subscripts to: `pa` on A, `pb` on B. */
  predicate Resolved(l: Lora, ix: seq<PyIndex>, pa: seq<Pick>, pb: seq<Pick>) {
    var n := Dims(l);
    && |ix| == n && PicksOk(pa, l.A.shape) && PicksOk(pb, l.B.shape)
    && (forall k :: 0 <= k < n - 1 ==> Some(pb[k]) == Resolve(ix[k], l.B.shape[k]))
    && pb[n - 1] == All(Rank(l)) && pa[n - 2] == All(Rank(l))
    && Some(pa[n - 1]) == Resolve(ix[n - 1], Cols(l))
    && (forall k :: 0 <= k < n - 2 && ix[k].Int? ==> l.A.shape[k] > 0 && pa[k] == One(ix[k].j % l.A.shape[k]))
    && (forall k :: 0 <= k < n - 2 && ix[k].Slice? ==> pa[k] == All(l.A.shape[k]))
  }

  lemma ResolveA(l: Lora, ix: seq<PyIndex>)
    requires |ix| == Dims(l)
    requires forall k :: 0 <= k < Dims(l) - 2 && ix[k].Int? ==> l.A.shape[k] > 0
    requires TorchIndex(l.A, IndicesA(l, ix)).Success?
    ensures var n := Dims(l); exists pa ::
      && PicksOk(pa, l.A.shape) && TorchIndex(l.A, IndicesA(l, ix)).value == PickT(l.A, pa)
      && pa[n - 2] == All(Rank(l)) && Some(pa[n - 1]) == Resolve(ix[n - 1], Cols(l))
      && (forall k :: 0 <= k < n - 2 && ix[k].Int? ==> pa[k] == One(ix[k].j % l.A.shape[k]))
      && (forall k :: 0 <= k < n - 2 && ix[k].Slice? ==> pa[k] == All(l.A.shape[k]))
  {
    hide PickT, Prod, PickOk, Resolve, IndicesA;
    var n := Dims(l);
    var ia := IndicesA(l, ix);
    assert Padded(ia, n) == ia;
    var pa := ResolveAll(ia, l.A.shape).value;
    forall k | 0 <= k < n ensures Some(pa[k]) == Resolve(ia[k], l.A.shape[k]) {}
    assert pa[n - 2] == All(Rank(l)) by { assert Some(pa[n - 2]) == Resolve(FULL, Rank(l)); }
    forall k | 0 <= k < n - 2 ensures pa[k] == if ix[k].Int? then One(ix[k].j % l.A.shape[k]) else All(l.A.shape[k]) {
      assert Some(pa[k]) == Resolve(ia[k], l.A.shape[k]);
      if ix[k].Int? { ResolveInt(ix[k].j % l.A.shape[k], l.A.shape[k]); }
    }
  }

  lemma ResolveInt(j: nat, n: nat)
    requires j < n
    ensures Resolve(Int(j), n) == Some(One(j))
  {}

  lemma ResolveB(l: Lora, ix: seq<PyIndex>)
    requires |ix| == Dims(l) && TorchIndex(l.B, ix[..Dims(l) - 1]).Success?
    ensures var n := Dims(l); exists pb ::
      && PicksOk(pb, l.B.shape) && TorchIndex(l.B, ix[..n - 1]).value == PickT(l.B, pb)
      && (forall k :: 0 <= k < n - 1 ==> Some(pb[k]) == Resolve(ix[k], l.B.shape[k]))
      && pb[n - 1] == All(Rank(l))
  {
    hide PickT, Prod, PickOk, Resolve;
    var n := Dims(l);
    var ib := Padded(ix[..n - 1], n);
    var pb := ResolveAll(ib, l.B.shape).value;
    forall k | 0 <= k < n ensures Some(pb[k]) == Resolve(ib[k], l.B.shape[k]) {}
    assert ib[n - 1] == FULL;
    forall k | 0 <= k < n - 1 ensures Some(pb[k]) == Resolve(ix[k], l.B.shape[k]) { assert ib[k] == ix[k]; }
  }

  lemma TuplePicks(l: Lora, idx: seq<PyIndex>) returns (pa: seq<Pick>, pb: seq<Pick>)
    requires GetTuple(l, idx).Success?
    ensures |pa| == |pb| == Dims(l) && Resolved(l, Padded(idx, Dims(l)), pa, pb)
    ensures var r := GetTuple(l, idx).value; r.A == PickT(l.A, pa) && r.B == PickT(l.B, pb)
  {
    hide PickT, Prod, PickedShape, PickOk, Resolve, TorchIndex, IndicesA;
    var ix := Padded(idx, Dims(l));
    FitsResolve(l, ix);
    pa, pb := BothPicks(l, ix);
  }

  /** One leading axis of an accepted tuple. */
  lemma TupleAxis(a: nat, b: nat, ix: PyIndex, pa: Pick, pb: Pick)
    requires a == 1 || a == b
    requires Some(pb) == Resolve(ix, b)
    requires ix.Int? ==> a > 0 && pa == One(ix.j % a)
    requires ix.Slice? ==> pa == All(a) && (a == 1 || pb.len == b)
    ensures AxisAgrees(a, pa, pb)
  {
    if ix.Int? {
      WrapIndex(ix.j, a);
    } else {
      if a != 1 { FullLength(ix, b); }
      forall i: nat | i < pb.len ensures SamePosition(a, pa, pb, i) {}
    }
  }

  lemma WrapIndex(j: int, n: nat)
    requires n > 0
    ensures 0 <= j < n ==> j % n == j
    ensures 0 <= j + n && j < 0 ==> j % n == j + n
    ensures n == 1 ==> j % n == 0
  {
    if 0 <= j + n && j < 0 {
      DivModUnique(0, j + n, n);
      assert (j + n) % n == j % n;
    }
    if 0 <= j < n {
      DivModUnique(0, j, n);
    }
  }

  lemma UnitStep(st: nat, n: nat)
    requires n >= 2 && st >= 1 && st * (n - 1) < n
    ensures st == 1
  {
    MulMonotone(2, st, n - 1);
  }

  /** A slice that keeps all of an axis keeps it in place. */
  lemma FullLength(ix: PyIndex, n: nat)
    requires ix.Slice? && Resolve(ix, n).Some? && Resolve(ix, n).value.len == n
    ensures forall i: nat :: i < n ==> PosAt(Resolve(ix, n).value, i) == i
  {
    var p := Resolve(ix, n).value;
    assert PickOk(p, n);
    if n >= 2 {
      UnitStep(p.step, n);
    }
    forall i: nat | i < n ensures PosAt(p, i) == i {}
  }

  lemma ResolvedKinds(l: Lora, ix: seq<PyIndex>, pa: seq<Pick>, pb: seq<Pick>)
    requires Resolved(l, ix, pa, pb)
    ensures var n := Dims(l);
      && (forall k :: 0 <= k < n - 2 ==> pa[k].One? == pb[k].One? == ix[k].Int?)
      && pb[n - 2].One? == ix[n - 2].Int? && pa[n - 1].One? == ix[n - 1].Int?
  {
    hide Prod, PickedShape, PickOk;
    forall k | 0 <= k < Dims(l) - 2 ensures pa[k].One? == pb[k].One? == ix[k].Int? {
      assert Some(pb[k]) == Resolve(ix[k], l.B.shape[k]);
    }
  }

  /** The constructor's rank check leaves two possibilities for the last two subscripts. */
  lemma ResolvedRanks(l: Lora, ix: seq<PyIndex>, pa: seq<Pick>, pb: seq<Pick>)
    requires Resolved(l, ix, pa, pb) && |PickedShape(pa)| == |PickedShape(pb)|
    ensures var n := Dims(l); ix[n - 2].Int? == ix[n - 1].Int?
    ensures var n := Dims(l); |PickedShape(pb)| == |PickedShape(pb[..n - 2])| + if ix[n - 2].Int? then 1 else 2
  {
    hide PickOk, Resolve, PickedShape;
    ResolvedKinds(l, ix, pa, pb);
    SameKinds(pa[..Dims(l) - 2], pb[..Dims(l) - 2]);
    AxesLeft(pa);
    AxesLeft(pb);
  }

  lemma AxesLeft(p: seq<Pick>)
    requires |p| >= 2
    ensures var n := |p|;
      |PickedShape(p)| == |PickedShape(p[..n - 2])| + (if p[n - 2].One? then 0 else 1) + (if p[n - 1].One? then 0 else 1)
  {
    hide PickedShape;
    var n := |p|;
    assert p == p[..n - 2] + [p[n - 2], p[n - 1]];
    PickedShapeConcat(p[..n - 2], [p[n - 2], p[n - 1]]);
    TwoPicked(p[n - 2], p[n - 1]);
  }

  lemma TwoPicked(p: Pick, q: Pick)
    ensures |PickedShape([p, q])| == (if p.One? then 0 else 1) + (if q.One? then 0 else 1)
  {
    assert [p, q][1..] == [q] && [q][1..] == [];
    assert PickedShape([q]) == if q.One? then PickedShape([]) else [q.len] + PickedShape([]);
  }

  function TupleRequest(l: Lora, pa: seq<Pick>, pb: seq<Pick>): (q: Request)
    requires |pa| == |pb| == Dims(l)
  {
    var n := Dims(l);
    Request(pa[..n - 2], pb[..n - 2], pb[n - 2], pa[n - 1])
  }

  lemma TupleRequestOk(l: Lora, ix: seq<PyIndex>, pa: seq<Pick>, pb: seq<Pick>)
    requires Broadcasts(l) && Resolved(l, ix, pa, pb) && |PickedShape(pa)| == |PickedShape(pb)|
    requires TupleSound(l, ix)
    ensures var q := TupleRequest(l, pa, pb); RequestOk(l, q) && PicksA(l, q) == pa && PicksB(l, q) == pb
  {
    hide Prod, AxisAgrees, PickOk, PickedShape;
    var n := Dims(l);
    var q := TupleRequest(l, pa, pb);
    ResolvedRanks(l, ix, pa, pb);
    ResolvedKinds(l, ix, pa, pb);
    forall k | 0 <= k < n - 2 ensures AxisAgrees(LeadA(l)[k], q.pa[k], q.pb[k]) {
      TupleAxis(l.A.shape[k], l.B.shape[k], ix[k], pa[k], pb[k]);
    }
    forall k | 0 <= k < n - 2 ensures PickOk(q.pa[k], LeadA(l)[k]) && PickOk(q.pb[k], LeadB(l)[k]) {
      assert PickOk(pa[k], l.A.shape[k]) && PickOk(pb[k], l.B.shape[k]);
    }
    assert PickOk(pb[n - 2], l.B.shape[n - 2]) && PickOk(pa[n - 1], l.A.shape[n - 1]);
  }

  /** The same subscript on the product. */
  lemma TupleOfProduct(l: Lora, idx: seq<PyIndex>, pa: seq<Pick>, pb: seq<Pick>)
    requires Broadcasts(l) && 0 < |idx| <= Dims(l) && Resolved(l, Padded(idx, Dims(l)), pa, pb)
    ensures var pw := PicksW(TupleRequest(l, pa, pb));
      PicksOk(pw, ShapeOf(l)) && TorchIndex(Dense(l), idx) == Success(PickT(Dense(l), pw))
  {
    hide PickT, Prod, Dense, Resolve, PickedShape, PickOk;
    var n := Dims(l);
    var pw := PicksW(TupleRequest(l, pa, pb));
    var ix := Padded(idx, n);
    forall k | 0 <= k < n ensures Some(pw[k]) == Resolve(ix[k], ShapeOf(l)[k]) {}
    var rs := ResolveAll(ix, ShapeOf(l));
    forall k | 0 <= k < n ensures pw[k] == rs.value[k] {
      assert Some(pw[k]) == Resolve(ix[k], ShapeOf(l)[k]) == Some(rs.value[k]);
    }
    assert rs.value == pw;
  }

  /** An accepted tuple subscript of the factors is the same subscript of the product exactly when
      it is sound; two ints on the last axes, or a thinned leading axis of A, give something else. */
  lemma GetTupleMeaning(l: Lora, idx: seq<PyIndex>)
    requires Broadcasts(l) && GetTuple(l, idx).Success?
    ensures var r := GetTuple(l, idx).value;
      (Broadcasts(r) && TorchIndex(Dense(l), idx) == Success(Dense(r))) <==> TupleSound(l, Padded(idx, Dims(l)))
  {
    hide PickT, Prod, Dense, PickBoth, RequestOk, Resolve, TorchIndex, PickedShape, Resolved;
    var n := Dims(l);
    var ix := Padded(idx, n);
    var r := GetTuple(l, idx).value;
    var pa, pb := TuplePicks(l, idx);
    TupleOfProduct(l, idx, pa, pb);
    if TupleSound(l, ix) {
      TupleRequestOk(l, ix, pa, pb);
      var q := TupleRequest(l, pa, pb);
      PickMeaning(l, q);
      assert r == PickBoth(l, q) by { PickBothIs(l, q); }
    } else {
      ResolvedRanks(l, ix, pa, pb);
      if ix[n - 2].Int? {
        TupleIntInt(l, ix, pa, pb);
      } else {
        TupleThinned(l, ix, r, pa, pb);
      }
    }
  }

  // ---------- which tuples are accepted ----------

  /** The lengths of A's leading axes that a slice is given for. */
  function Kept(s: Shape, ix: seq<PyIndex>): Shape
    requires |s| == |ix|
  {
    if s == [] then [] else (if ix[0].Int? then [] else [s[0]]) + Kept(s[1..], ix[1..])
  }

  lemma {:induction false} PickedKept(s: Shape, ix: seq<PyIndex>, p: seq<Pick>)
    requires |s| == |ix| == |p|
    requires forall k :: 0 <= k < |s| ==> if ix[k].Int? then p[k].One? else p[k] == All(s[k])
    ensures PickedShape(p) == Kept(s, ix)
  {
    if s != [] {
      assert forall k :: 0 <= k < |s| - 1 ==> p[1..][k] == p[k + 1] && ix[1..][k] == ix[k + 1] && s[1..][k] == s[k + 1];
      PickedKept(s[1..], ix[1..], p[1..]);
    }
  }

  /** The subscripts fit the axes they are applied to. */
  predicate TupleFits(l: Lora, ix: seq<PyIndex>)
    requires |ix| == Dims(l)
  {
    var n := Dims(l);
    && (forall k :: 0 <= k < n - 2 && ix[k].Int? ==> l.A.shape[k] > 0)
    && (forall k :: 0 <= k < n - 1 ==> Resolve(ix[k], l.B.shape[k]).Some?)
    && Resolve(ix[n - 1], Cols(l)).Some?
  }

  /** What is left are two factors again: both last subscripts are slices, or both are ints and the last
      leading axis that A keeps happens to have the length of the rank. */
  predicate TupleLeavesFactors(l: Lora, ix: seq<PyIndex>)
    requires |ix| == Dims(l)
  {
    var n := Dims(l);
    var kept := Kept(LeadA(l), ix[..n - 2]);
    && ix[n - 2].Int? == ix[n - 1].Int?
    && (ix[n - 1].Int? ==> kept != [] && kept[|kept| - 1] == Rank(l))
  }

  lemma PicksLeave(l: Lora, ix: seq<PyIndex>, pa: seq<Pick>, pb: seq<Pick>)
    requires Resolved(l, ix, pa, pb)
    ensures FactorsAgree(PickT(l.A, pa), PickT(l.B, pb)) <==> TupleLeavesFactors(l, ix)
  {
    hide PickT, PickOk, Resolve, PickedShape, Prod;
    var n := Dims(l);
    ResolvedKinds(l, ix, pa, pb);
    SameKinds(pa[..n - 2], pb[..n - 2]);
    PickedKept(LeadA(l), ix[..n - 2], pa[..n - 2]);
    LastPicked(pa);
    LastPicked(pb);
  }

  lemma LastPicked(p: seq<Pick>)
    requires |p| >= 2
    ensures var n := |p|; var lead := PickedShape(p[..n - 2]);
      PickedShape(p) == lead + (if p[n - 2].One? then [] else [p[n - 2].len]) + (if p[n - 1].One? then [] else [p[n - 1].len])
  {
    hide PickedShape;
    var n := |p|;
    assert p == p[..n - 2] + [p[n - 2], p[n - 1]];
    PickedShapeConcat(p[..n - 2], [p[n - 2], p[n - 1]]);
    PickedTwo(p[n - 2], p[n - 1]);
  }

  lemma PickedTwo(p: Pick, q: Pick)
    ensures PickedShape([p, q]) == (if p.One? then [] else [p.len]) + (if q.One? then [] else [q.len])
  {
    assert [p, q][1..] == [q] && [q][1..] == [];
    assert PickedShape([q]) == if q.One? then PickedShape([]) else [q.len] + PickedShape([]);
  }

  lemma FitsResolve(l: Lora, ix: seq<PyIndex>)
    requires |ix| == Dims(l) && (forall k :: 0 <= k < Dims(l) - 2 && ix[k].Int? ==> l.A.shape[k] > 0)
    ensures TorchIndex(l.A, IndicesA(l, ix)).Success? <==> Resolve(ix[Dims(l) - 1], Cols(l)).Some?
    ensures TorchIndex(l.B, ix[..Dims(l) - 1]).Success? <==> forall k :: 0 <= k < Dims(l) - 1 ==> Resolve(ix[k], l.B.shape[k]).Some?
  {
    hide PickT, Resolve, Prod, PickOk;
    var n := Dims(l);
    var ia, ib := IndicesA(l, ix), Padded(ix[..n - 1], n);
    assert Padded(ia, n) == ia;
    forall k | 0 <= k < n - 1 ensures Resolve(ia[k], l.A.shape[k]).Some? { LeadResolves(l, ix, k); }
    assert ib[n - 1] == FULL && forall k :: 0 <= k < n - 1 ==> ib[k] == ix[k];
    FullResolves(Rank(l));
  }

  lemma FullResolves(n: nat)
    ensures Resolve(FULL, n).Some?
  {}

  lemma LeadResolves(l: Lora, ix: seq<PyIndex>, k: nat)
    requires |ix| == Dims(l) && k < Dims(l) - 1 && (forall k :: 0 <= k < Dims(l) - 2 && ix[k].Int? ==> l.A.shape[k] > 0)
    ensures Resolve(IndicesA(l, ix)[k], l.A.shape[k]).Some?
  {
    hide Resolve;
    FullResolves(l.A.shape[k]);
    if k < Dims(l) - 2 && ix[k].Int? { ResolveInt(ix[k].j % l.A.shape[k], l.A.shape[k]); }
  }

  /** A tuple subscript is accepted exactly when it has between one and as many entries as there are axes, they fit the
      axes, and what is left are two factors. */
  lemma GetTupleAccepts(l: Lora, idx: seq<PyIndex>)
    ensures GetTuple(l, idx).Success? <==>
      0 < |idx| <= Dims(l) && TupleFits(l, Padded(idx, Dims(l))) && TupleLeavesFactors(l, Padded(idx, Dims(l)))
  {
    hide PickT, Resolve, Prod, PickOk, TorchIndex, IndicesA, PickedShape, TupleLeavesFactors, Resolved;
    var n := Dims(l);
    var ix := Padded(idx, n);
    if 0 < |idx| <= n && forall k :: 0 <= k < n - 2 && ix[k].Int? ==> l.A.shape[k] > 0 {
      FitsResolve(l, ix);
      if TupleFits(l, ix) {
        var pa, pb := BothPicks(l, ix);
        PicksLeave(l, ix, pa, pb);
      }
    }
  }

  lemma BothPicks(l: Lora, ix: seq<PyIndex>) returns (pa: seq<Pick>, pb: seq<Pick>)
    requires |ix| == Dims(l) && TupleFits(l, ix)
    ensures TorchIndex(l.A, IndicesA(l, ix)).Success? && TorchIndex(l.B, ix[..Dims(l) - 1]).Success?
    ensures Resolved(l, ix, pa, pb)
    ensures TorchIndex(l.A, IndicesA(l, ix)).value == PickT(l.A, pa) && TorchIndex(l.B, ix[..Dims(l) - 1]).value == PickT(l.B, pb)
  {
    hide PickT, Prod, PickedShape, PickOk, Resolve, TorchIndex, IndicesA;
    var n := Dims(l);
    FitsResolve(l, ix);
    ResolveA(l, ix);
    ResolveB(l, ix);
    pa :| && PicksOk(pa, l.A.shape) && TorchIndex(l.A, IndicesA(l, ix)).value == PickT(l.A, pa)
      && pa[n - 2] == All(Rank(l)) && Some(pa[n - 1]) == Resolve(ix[n - 1], Cols(l))
      && (forall k :: 0 <= k < n - 2 && ix[k].Int? ==> pa[k] == One(ix[k].j % l.A.shape[k]))
      && (forall k :: 0 <= k < n - 2 && ix[k].Slice? ==> pa[k] == All(l.A.shape[k]));
    pb :| && PicksOk(pb, l.B.shape) && TorchIndex(l.B, ix[..n - 1]).value == PickT(l.B, pb)
      && (forall k :: 0 <= k < n - 1 ==> Some(pb[k]) == Resolve(ix[k], l.B.shape[k]))
      && pb[n - 1] == All(Rank(l));
  }

  lemma PickBothIs(l: Lora, q: Request)
    requires Broadcasts(l) && RequestOk(l, q)
    ensures PicksOk(PicksA(l, q), l.A.shape) && PicksOk(PicksB(l, q), l.B.shape)
    ensures PickBoth(l, q) == RawLora(PickT(l.A, PicksA(l, q)), PickT(l.B, PicksB(l, q)))
  {
    hide PickT, Prod;
    RequestPicks(l, q);
  }

  lemma TupleIntInt(l: Lora, ix: seq<PyIndex>, pa: seq<Pick>, pb: seq<Pick>)
    requires Resolved(l, ix, pa, pb) && |PickedShape(pa)| == |PickedShape(pb)| && ix[Dims(l) - 2].Int?
    ensures |PickedShape(PicksW(TupleRequest(l, pa, pb)))| < |PickedShape(pa)|
  {
    hide Prod, PickOk, Resolve;
    ResolvedRanks(l, ix, pa, pb);
    ResolvedKinds(l, ix, pa, pb);
    var n := Dims(l);
    PickedShapeConcat(pb[..n - 2], [pb[n - 2], pa[n - 1]]);
    TwoPicked(pb[n - 2], pa[n - 1]);
  }

  lemma TupleThinned(l: Lora, ix: seq<PyIndex>, r: Lora, pa: seq<Pick>, pb: seq<Pick>)
    requires Broadcasts(l) && Resolved(l, ix, pa, pb)
    requires r.A.shape == PickedShape(pa) && r.B.shape == PickedShape(pb)
    requires !TupleSound(l, ix) && ix[Dims(l) - 2].Slice?
    ensures !Broadcasts(r)
  {
    hide Prod, PickOk, Resolve, PickedShape;
    var n := Dims(l);
    ResolvedKinds(l, ix, pa, pb);
    ResolvedRanks(l, ix, pa, pb);
    var k :| 0 <= k < n - 2 && ix[k].Slice? && l.A.shape[k] != 1 && pb[k].len != l.B.shape[k];
    PickedAt(pa, k);
    PickedAt(pb, k);
    SameKinds(pa[..k], pb[..k]);
    var c := |PickedShape(pb[..k])|;
    PickedInLead(pb, n - 2, k);
    assert r.A.shape[c] == l.A.shape[k] == l.B.shape[k] && r.B.shape[c] == pb[k].len;
  }

  lemma PickedInLead(p: seq<Pick>, m: nat, k: nat)
    requires k < m <= |p| && p[k].Range?
    ensures |PickedShape(p[..k])| < |PickedShape(p[..m])|
  {
    assert p[..m] == p[..k] + p[k..m];
    PickedShapeConcat(p[..k], p[k..m]);
    assert p[k..m][0] == p[k];
  }

  // ---------- a single int or slice ----------

  /** A single int subscript; matrices are refused because a vector cannot be factored. */
  function GetInt(l: Lora, j: int): Result<Lora> {
    if Dims(l) <= 2 then Failure
    else
      var a, b := TorchIndex(l.A, [Int(j)]), TorchIndex(l.B, [Int(j)]);
      if a.Success? && b.Success? then Make(a.value, b.value) else Failure
  }

  function GetSlice(l: Lora, p: PyIndex): Result<Lora>
    requires p.Slice?
  {
    var b := TorchIndex(l.B, [p]);
    if Dims(l) <= 2 then
      if b.Success? then Make(l.A, b.value) else Failure
    else
      var a := TorchIndex(l.A, [p]);
      if a.Success? && b.Success? then Make(a.value, b.value) else Failure
  }

  /** Resolving a subscript of the first axis only. */
  lemma FirstAxis(t: Tensor, p: PyIndex)
    requires |t.shape| >= 1
    ensures var r := Resolve(p, t.shape[0]);
      && TorchIndex(t, [p]).Success? == r.Some?
      && (r.Some? ==> var ps := FullPicks(t.shape)[0 := r.value];
           PicksOk(ps, t.shape) && TorchIndex(t, [p]) == Success(PickT(t, ps)))
  {
    hide PickT, Prod, Resolve, PickOk;
    var n := |t.shape|;
    var ix := Padded([p], n);
    var r := Resolve(p, t.shape[0]);
    forall k | 1 <= k < n ensures Resolve(ix[k], t.shape[k]) == Some(FullPicks(t.shape)[k]) { assert ix[k] == FULL; }
    assert ix[0] == p;
    var rs := ResolveAll(ix, t.shape);
    if r.Some? {
      var ps := FullPicks(t.shape)[0 := r.value];
      forall k | 0 <= k < n ensures Resolve(ix[k], t.shape[k]) == Some(ps[k]) {}
      assert rs.Some?;
      forall k | 0 <= k < n ensures rs.value[k] == ps[k] { assert Some(rs.value[k]) == Some(ps[k]); }
      assert rs.value == ps;
    } else {
      assert Resolve(ix[0], t.shape[0]).None?;
    }
  }

  /** The request that picks on one axis only: pa on A, pb on B. */
  function AxisRequest(l: Lora, d: nat, pa: Pick, pb: Pick): Request
    requires d < Dims(l)
  {
    var n := Dims(l);
    Request(
      if d < n - 2 then FullPicks(LeadA(l))[d := pa] else FullPicks(LeadA(l)),
      if d < n - 2 then FullPicks(LeadB(l))[d := pb] else FullPicks(LeadB(l)),
      if d == n - 2 then pb else All(l.B.shape[n - 2]),
      if d == n - 1 then pa else All(Cols(l)))
  }

  lemma FullPicksSplit(s: Shape)
    requires |s| >= 2
    ensures var m := |s| - 2; FullPicks(s) == FullPicks(s[..m]) + [All(s[m]), All(s[m + 1])]
  {}

  lemma UpdatePair(x: seq<Pick>, a: Pick, b: Pick, d: nat, p: Pick)
    requires d < |x| + 2
    ensures (x + [a, b])[d := p] ==
      if d < |x| then x[d := p] + [a, b] else if d == |x| then x + [p, b] else x + [a, p]
  {}

  function PicksAround(lead: seq<Pick>, a: Pick, b: Pick, d: nat, p: Pick): seq<Pick> {
    var m := |lead|;
    (if d < m then lead[d := p] else lead) + [if d == m then p else a, if d == m + 1 then p else b]
  }

  lemma AxisPicks(s: Shape, d: nat, p: Pick)
    requires |s| >= 2 && d < |s|
    ensures var m := |s| - 2;
      FullPicks(s)[d := p] == PicksAround(FullPicks(s[..m]), All(s[m]), All(s[m + 1]), d, p)
  {
    hide FullPicks;
    var m := |s| - 2;
    FullPicksSplit(s);
    UpdatePair(FullPicks(s[..m]), All(s[m]), All(s[m + 1]), d, p);
  }

  lemma AxisPicksA(l: Lora, d: nat, pa: Pick, pb: Pick)
    requires d < Dims(l)
    ensures PicksA(l, AxisRequest(l, d, pa, pb))
         == if d == Dims(l) - 2 then FullPicks(l.A.shape) else FullPicks(l.A.shape)[d := pa]
  {
    hide Prod, FullPicks;
    FullPicksSplit(l.A.shape);
    AxisPicks(l.A.shape, d, pa);
  }

  lemma AxisPicksB(l: Lora, d: nat, pa: Pick, pb: Pick)
    requires d < Dims(l)
    ensures PicksB(l, AxisRequest(l, d, pa, pb))
         == if d == Dims(l) - 1 then FullPicks(l.B.shape) else FullPicks(l.B.shape)[d := pb]
  {
    hide Prod, FullPicks;
    FullPicksSplit(l.B.shape);
    AxisPicks(l.B.shape, d, pb);
  }

  lemma AxisRequestPicks(l: Lora, d: nat, pa: Pick, pb: Pick)
    requires d < Dims(l)
    ensures var q := AxisRequest(l, d, pa, pb); var n := Dims(l);
      && PicksA(l, q) == (if d == n - 2 then FullPicks(l.A.shape) else FullPicks(l.A.shape)[d := pa])
      && PicksB(l, q) == (if d == n - 1 then FullPicks(l.B.shape) else FullPicks(l.B.shape)[d := pb])
      && PicksW(q) == FullPicks(ShapeOf(l))[d := if d == n - 1 then pa else pb]
  {
    hide Prod, FullPicks, PicksA, PicksB;
    AxisPicksA(l, d, pa, pb);
    AxisPicksB(l, d, pa, pb);
    assert ShapeOf(l)[..Dims(l) - 2] == LeadB(l);
    AxisPicks(ShapeOf(l), d, if d == Dims(l) - 1 then pa else pb);
  }

  lemma AxisRequestOk(l: Lora, d: nat, pa: Pick, pb: Pick)
    requires Broadcasts(l) && d < Dims(l)
    requires d != Dims(l) - 2 ==> PickOk(pa, l.A.shape[d])
    requires d != Dims(l) - 1 ==> PickOk(pb, l.B.shape[d])
    requires d < Dims(l) - 2 ==> AxisAgrees(l.A.shape[d], pa, pb)
    requires d == Dims(l) - 2 ==> pb.Range?
    requires d == Dims(l) - 1 ==> pa.Range?
    ensures RequestOk(l, AxisRequest(l, d, pa, pb))
  {
    hide PickT, Prod, PickedShape, AxisAgrees;
    var q := AxisRequest(l, d, pa, pb);
    forall k | 0 <= k < Dims(l) - 2 ensures AxisAgrees(LeadA(l)[k], q.pa[k], q.pb[k]) {
      if k != d {
        FullAxis(l.A.shape[k], l.B.shape[k]);
        assert q.pa[k] == All(l.A.shape[k]) && q.pb[k] == All(l.B.shape[k]);
      }
    }
  }

  lemma FullAxis(a: nat, b: nat)
    requires a == 1 || a == b
    ensures AxisAgrees(a, All(a), All(b))
  {
    forall i: nat | i < b ensures SamePosition(a, All(a), All(b), i) {}
  }

  /** An accepted int subscript of the factors is the same subscript of the product. */
  lemma GetIntMeaning(l: Lora, j: int)
    requires Broadcasts(l) && GetInt(l, j).Success?
    ensures var r := GetInt(l, j).value;
      Broadcasts(r) && TorchIndex(Dense(l), [Int(j)]) == Success(Dense(r))
  {
    hide PickT, Prod, Dense, PickedShape, TorchIndex, PickBoth, RequestOk;
    FirstAxis(l.A, Int(j));
    FirstAxis(l.B, Int(j));
    FirstAxis(Dense(l), Int(j));
    var pa, pb := Resolve(Int(j), l.A.shape[0]).value, Resolve(Int(j), l.B.shape[0]).value;
    assert AxisAgrees(l.A.shape[0], pa, pb);
    AxisRequestOk(l, 0, pa, pb);
    AxisRequestPicks(l, 0, pa, pb);
    var q := AxisRequest(l, 0, pa, pb);
    PickMeaning(l, q);
    PickBothIs(l, q);
  }

  function SliceLen(p: PyIndex, n: nat): nat
    requires p.Slice? && Resolve(p, n).Some?
  {
    Resolve(p, n).value.len
  }

  /** A slice of the factors is the slice of the product exactly when slicing A's first axis keeps
      it broadcastable: A has its own first axis, or its single position survives the slice, or
      nothing is left of B either. */
  lemma GetSliceMeaning(l: Lora, p: PyIndex)
    requires Broadcasts(l) && p.Slice? && GetSlice(l, p).Success?
    ensures Resolve(p, l.A.shape[0]).Some? && Resolve(p, l.B.shape[0]).Some?
    ensures var r := GetSlice(l, p).value;
      (Broadcasts(r) && TorchIndex(Dense(l), [p]) == Success(Dense(r))) <==>
      (Dims(l) == 2 || l.A.shape[0] == l.B.shape[0] || SliceLen(p, 1) == 1 || SliceLen(p, l.B.shape[0]) == 0)
  {
    hide PickT, Prod, Dense, PickedShape, TorchIndex, PickBoth, RequestOk, AxisAgrees, Resolve;
    FirstAxis(l.A, p);
    FirstAxis(l.B, p);
    FirstAxis(Dense(l), p);
    SliceResolves(p, l.A.shape[0], l.B.shape[0]);
    SliceResolves(p, 1, l.B.shape[0]);
    var pa, pb := Resolve(p, l.A.shape[0]).value, Resolve(p, l.B.shape[0]).value;
    if Dims(l) == 2 {
      RowsMeaning(l, pb);
    } else if l.A.shape[0] == l.B.shape[0] || pa.len == 1 || pb.len == 0 {
      SliceAxis(p, l.A.shape[0], l.B.shape[0]);
      AxisRequestOk(l, 0, pa, pb);
      AxisRequestPicks(l, 0, pa, pb);
      var q := AxisRequest(l, 0, pa, pb);
      PickMeaning(l, q);
      PickBothIs(l, q);
    } else {
      var r := GetSlice(l, p).value;
      assert r.A == PickT(l.A, FullPicks(l.A.shape)[0 := pa]) && r.B == PickT(l.B, FullPicks(l.B.shape)[0 := pb]);
      FirstPicked(l.A.shape, pa);
      FirstPicked(l.B.shape, pb);
      assert r.A.shape[0] == pa.len == 0 && r.B.shape[0] == pb.len > 0;
    }
  }

  lemma SliceResolves(p: PyIndex, a: nat, b: nat)
    requires p.Slice? && Resolve(p, b).Some?
    ensures Resolve(p, a).Some? && Resolve(p, a).value.Range? && Resolve(p, a).value.len <= a
  {}

  lemma SliceAxis(p: PyIndex, a: nat, b: nat)
    requires p.Slice? && (a == 1 || a == b) && Resolve(p, a).Some? && Resolve(p, b).Some?
    requires a == b || SliceLen(p, a) == 1 || SliceLen(p, b) == 0
    ensures AxisAgrees(a, Resolve(p, a).value, Resolve(p, b).value)
  {}

  lemma FirstPicked(s: Shape, p: Pick)
    requires |s| >= 1 && p.Range?
    ensures |PickedShape(FullPicks(s)[0 := p])| == |s| && PickedShape(FullPicks(s)[0 := p])[0] == p.len
  {
    var ps := FullPicks(s)[0 := p];
    SameKinds(ps, FullPicks(s));
    FullPickedShape(s);
  }

  /** Picking every position of every axis is the identity. */
  lemma FullPickIdentity(t: Tensor)
    ensures PickT(t, FullPicks(t.shape)) == t
  {
    hide PickT, Prod;
    FullPickedShape(t.shape);
    forall i | InBounds(i, t.shape) ensures At(PickT(t, FullPicks(t.shape)), i) == At(t, i) {
      FullSource(t.shape, i);
      PickAt(t, FullPicks(t.shape), i);
    }
    Extensional(PickT(t, FullPicks(t.shape)), t);
  }

  lemma {:induction false} FullPickedShape(s: Shape)
    ensures PickedShape(FullPicks(s)) == s
  {
    if s != [] {
      assert FullPicks(s)[1..] == FullPicks(s[1..]);
      FullPickedShape(s[1..]);
    }
  }

  lemma {:induction false} FullSource(s: Shape, i: Index)
    requires |i| == |s|
    ensures |PickedShape(FullPicks(s))| == |s| && Source(FullPicks(s), i) == i
  {
    FullPickedShape(s);
    if s != [] {
      assert FullPicks(s)[1..] == FullPicks(s[1..]);
      FullSource(s[1..], i[1..]);
      assert PosAt(FullPicks(s)[0], i[0]) == i[0];
    }
  }

  /** Slicing the rows of a matrix slices B alone. */
  lemma RowsMeaning(l: Lora, p: Pick)
    requires Dims(l) == 2 && p.Range? && PickOk(p, l.B.shape[0])
    ensures var pb := FullPicks(l.B.shape)[0 := p]; var pw := FullPicks(ShapeOf(l))[0 := p];
      && PicksOk(pb, l.B.shape) && PicksOk(pw, ShapeOf(l)) && FactorsAgree(l.A, PickT(l.B, pb))
      && Dense(RawLora(l.A, PickT(l.B, pb))) == PickT(Dense(l), pw)
  {
    hide PickT, Prod, Dense, PickBoth, PickOk;
    AxisRequestOk(l, 0, p, p);
    AxisRequestPicks(l, 0, p, p);
    var q := AxisRequest(l, 0, p, p);
    FullPickIdentity(l.A);
    PickMeaning(l, q);
    PickBothIs(l, q);
  }
}
