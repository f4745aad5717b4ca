/** Subscripting a factored tensor: the factors are subscripted separately, the leading axes on
    both, the row axis on B and the column axis on A. */
module LoraIndexing {
  import opened Tensors
  import opened TensorOps
  import opened LoraTensor

  // ---------- picking from both factors at once ----------

  lemma {:induction false} PickedShapeConcat(p: seq<Pick>, q: seq<Pick>)
    ensures PickedShape(p + q) == PickedShape(p) + PickedShape(q)
  {
    if p == [] {
      assert p + q == q;
    } else {
      assert (p + q)[1..] == p[1..] + q;
      PickedShapeConcat(p[1..], q);
    }
  }

  lemma SourceCons(p: Pick, ps: seq<Pick>, i: Index)
    requires |i| == |PickedShape(ps)|
    ensures p.One? ==> PickedShape([p] + ps) == PickedShape(ps) && Source([p] + ps, i) == [p.pos] + Source(ps, i)
    ensures p.Range? ==> PickedShape([p] + ps) == [p.len] + PickedShape(ps)
    ensures p.Range? ==> forall x: nat :: Source([p] + ps, [x] + i) == [PosAt(p, x)] + Source(ps, i)
  {
    assert ([p] + ps)[1..] == ps;
    if p.Range? {
      forall x: nat ensures Source([p] + ps, [x] + i) == [PosAt(p, x)] + Source(ps, i) {
        assert ([x] + i)[1..] == i;
      }
    }
  }

  lemma {:induction false} SourceConcat(p: seq<Pick>, q: seq<Pick>, i: Index, j: Index)
    requires |i| == |PickedShape(p)| && |j| == |PickedShape(q)|
    ensures |i + j| == |PickedShape(p + q)|
    ensures Source(p + q, i + j) == Source(p, i) + Source(q, j)
    decreases |p|, 1
  {
    PickedShapeConcat(p, q);
    if p == [] {
      assert p + q == q && i + j == j;
    } else {
      SourceConcatStep(p, q, i, j);
    }
  }

  lemma {:induction false} SourceConcatStep(p: seq<Pick>, q: seq<Pick>, i: Index, j: Index)
    requires |i| == |PickedShape(p)| && |j| == |PickedShape(q)| && |i + j| == |PickedShape(p + q)| && p != []
    ensures Source(p + q, i + j) == Source(p, i) + Source(q, j)
    decreases |p|, 0
  {
    hide Source, PickedShape;
    var ps := p[1..];
    assert p == [p[0]] + ps && p + q == [p[0]] + (ps + q);
    PickedShapeConcat(ps, q);
    if p[0].One? {
      SourceCons(p[0], ps, seq(|PickedShape(ps)|, _ => 0));
      SourceConcat(ps, q, i, j);
      SourceCons(p[0], ps, i);
      SourceCons(p[0], ps + q, i + j);
    } else {
      SourceCons(p[0], ps, seq(|PickedShape(ps)|, _ => 0));
      SourceConcat(ps, q, i[1..], j);
      SourceCons(p[0], ps, i[1..]);
      SourceCons(p[0], ps + q, i[1..] + j);
      assert i == [i[0]] + i[1..] && i + j == [i[0]] + (i[1..] + j);
    }
  }

  predicate SamePosition(a: nat, pa: Pick, pb: Pick, i: nat)
    requires pa.Range? && pb.Range?
  {
    PosAt(pa, if pa.len == 1 then 0 else i) == if a == 1 then 0 else PosAt(pb, i)
  }

  /** On one leading axis (length a in A, b in B) the picks agree when they keep broadcasting and
      reach the same positions of the product. */
  predicate AxisAgrees(a: nat, pa: Pick, pb: Pick) {
    if pa.One? then pb.One? && pa.pos == (if a == 1 then 0 else pb.pos)
    else
      && pb.Range? && (pa.len == 1 || pa.len == pb.len)
      && forall i: nat :: i < pb.len ==> SamePosition(a, pa, pb, i)
  }

  predicate LeadsAgree(sa: Shape, pa: seq<Pick>, pb: seq<Pick>) {
    |pa| == |pb| == |sa| && forall k :: 0 <= k < |sa| ==> AxisAgrees(sa[k], pa[k], pb[k])
  }

  lemma LeadsTail(sa: Shape, pa: seq<Pick>, pb: seq<Pick>)
    requires LeadsAgree(sa, pa, pb) && sa != []
    ensures AxisAgrees(sa[0], pa[0], pb[0]) && LeadsAgree(sa[1..], pa[1..], pb[1..])
  {
    forall k | 0 <= k < |sa| - 1 ensures AxisAgrees(sa[1..][k], pa[1..][k], pb[1..][k]) {
      assert AxisAgrees(sa[k + 1], pa[k + 1], pb[k + 1]);
    }
  }

  lemma StretchCons(x: nat, i: Index, n: nat, s: Shape)
    requires |i| == |s|
    ensures Stretch([x] + i, [n] + s) == [if n == 1 then 0 else x] + Stretch(i, s)
  {}

  lemma {:induction false} LeadSource(sa: Shape, pa: seq<Pick>, pb: seq<Pick>, i: Index)
    requires LeadsAgree(sa, pa, pb) && InBounds(i, PickedShape(pb))
    ensures |PickedShape(pa)| == |PickedShape(pb)|
    ensures Source(pa, Stretch(i, PickedShape(pa))) == Stretch(Source(pb, i), sa)
  {
    hide AxisAgrees, Stretch;
    if sa != [] {
      LeadsTail(sa, pa, pb);
      assert sa == [sa[0]] + sa[1..];
      if pb[0].One? {
        LeadSource(sa[1..], pa[1..], pb[1..], i);
        OneAxis(sa[0], pa[0], pb[0]);
        StretchCons(pb[0].pos, Source(pb[1..], i), sa[0], sa[1..]);
      } else {
        LeadSource(sa[1..], pa[1..], pb[1..], i[1..]);
        RangeAxis(sa[0], pa[0], pb[0], i[0]);
        assert i == [i[0]] + i[1..];
        StretchCons(i[0], i[1..], pa[0].len, PickedShape(pa[1..]));
        var x := if pa[0].len == 1 then 0 else i[0];
        assert Stretch(i, PickedShape(pa))[1..] == Stretch(i[1..], PickedShape(pa[1..]));
        StretchCons(PosAt(pb[0], i[0]), Source(pb[1..], i[1..]), sa[0], sa[1..]);
      }
    }
  }

  lemma OneAxis(a: nat, pa: Pick, pb: Pick)
    requires AxisAgrees(a, pa, pb) && pb.One?
    ensures pa.One? && pa.pos == if a == 1 then 0 else pb.pos
  {}

  lemma RangeAxis(a: nat, pa: Pick, pb: Pick, i: nat)
    requires AxisAgrees(a, pa, pb) && pb.Range? && i < pb.len
    ensures pa.Range? && PosAt(pa, if pa.len == 1 then 0 else i) == if a == 1 then 0 else PosAt(pb, i)
  {
    assert SamePosition(a, pa, pb, i);
  }

  lemma {:induction false} LeadsBroadcast(sa: Shape, pa: seq<Pick>, pb: seq<Pick>, k: nat)
    requires LeadsAgree(sa, pa, pb)
    ensures |PickedShape(pa)| == |PickedShape(pb)|
    ensures k < |PickedShape(pa)| ==> PickedShape(pa)[k] == 1 || PickedShape(pa)[k] == PickedShape(pb)[k]
  {
    if sa != [] {
      LeadsTail(sa, pa, pb);
      LeadsBroadcast(sa[1..], pa[1..], pb[1..], if pa[0].One? then k else if k == 0 then 0 else k - 1);
    }
  }

  function All(n: nat): (p: Pick)
    ensures PickOk(p, n)
  {
    Range(0, n, 1)
  }

  /** A request on both factors: leading picks for each, then rows of B and columns of A. */
  datatype Request = Request(pa: seq<Pick>, pb: seq<Pick>, rows: Pick, cols: Pick)

  predicate RequestOk(l: Lora, q: Request) {
    && PicksOk(q.pa, LeadA(l)) && PicksOk(q.pb, LeadB(l))
    && q.rows.Range? && PickOk(q.rows, l.B.shape[Dims(l) - 2])
    && q.cols.Range? && PickOk(q.cols, Cols(l))
    && LeadsAgree(LeadA(l), q.pa, q.pb)
  }

  function PicksA(l: Lora, q: Request): seq<Pick> { q.pa + [All(Rank(l)), q.cols] }

  function PicksB(l: Lora, q: Request): seq<Pick> { q.pb + [q.rows, All(Rank(l))] }

  function PicksW(q: Request): seq<Pick> { q.pb + [q.rows, q.cols] }

  lemma PairPicked(p: Pick, q: Pick)
    requires p.Range? && q.Range?
    ensures PickedShape([p, q]) == [p.len, q.len]
  {
    assert [p, q][1..] == [q] && [q][1..] == [];
    assert PickedShape([q]) == [q.len] + PickedShape([]);
  }

  lemma PairSource(p: Pick, q: Pick, x: nat, y: nat)
    requires p.Range? && q.Range?
    ensures |PickedShape([p, q])| == 2 && Source([p, q], [x, y]) == [PosAt(p, x), PosAt(q, y)]
  {
    PairPicked(p, q);
    assert [p, q][1..] == [q] && [q][1..] == [] && [x, y][1..] == [y] && [y][1..] == [];
    assert PickedShape([q]) == [q.len];
    assert Source([q], [y]) == [PosAt(q, y)] + Source([], []);
  }

  lemma RequestPicks(l: Lora, q: Request)
    requires Broadcasts(l) && RequestOk(l, q)
    ensures PicksOk(PicksA(l, q), l.A.shape) && PicksOk(PicksB(l, q), l.B.shape) && PicksOk(PicksW(q), ShapeOf(l))
    ensures PickedShape(PicksA(l, q)) == PickedShape(q.pa) + [Rank(l), q.cols.len]
    ensures PickedShape(PicksB(l, q)) == PickedShape(q.pb) + [q.rows.len, Rank(l)]
    ensures PickedShape(PicksW(q)) == PickedShape(q.pb) + [q.rows.len, q.cols.len]
    ensures |PickedShape(q.pa)| == |PickedShape(q.pb)|
  {
    var n := Dims(l);
    LeadsBroadcast(LeadA(l), q.pa, q.pb, 0);
    forall k | 0 <= k < n ensures PickOk(PicksA(l, q)[k], l.A.shape[k]) && PickOk(PicksB(l, q)[k], l.B.shape[k])
      && PickOk(PicksW(q)[k], ShapeOf(l)[k])
    {
      if k < n - 2 {
        assert LeadA(l)[k] == l.A.shape[k] && LeadB(l)[k] == l.B.shape[k];
      }
    }
    PickedShapeConcat(q.pa, [All(Rank(l)), q.cols]);
    PickedShapeConcat(q.pb, [q.rows, All(Rank(l))]);
    PickedShapeConcat(q.pb, [q.rows, q.cols]);
    PairPicked(All(Rank(l)), q.cols);
    PairPicked(q.rows, All(Rank(l)));
    PairPicked(q.rows, q.cols);
  }

  /** The factors after the request. */
  function PickBoth(l: Lora, q: Request): (r: Lora)
    requires Broadcasts(l) && RequestOk(l, q)
    ensures Rank(r) == Rank(l) && ShapeOf(r) == PickedShape(PicksW(q))
    ensures LeadA(r) == PickedShape(q.pa) && LeadB(r) == PickedShape(q.pb) && Broadcasts(r)
  {
    RequestPicks(l, q);
    var r := RawLora(PickT(l.A, PicksA(l, q)), PickT(l.B, PicksB(l, q)));
    assert Broadcasts(r) by {
      forall k | 0 <= k < Dims(r) - 2 ensures r.A.shape[k] == 1 || r.A.shape[k] == r.B.shape[k] {
        LeadsBroadcast(LeadA(l), q.pa, q.pb, k);
      }
    }
    r
  }

  lemma PickTerm(l: Lora, q: Request, lead: Index, x: nat, y: nat, k: nat)
    requires Broadcasts(l) && RequestOk(l, q) && k < Rank(l)
    requires InBounds(lead, PickedShape(q.pb)) && x < q.rows.len && y < q.cols.len
    ensures InBounds(lead + [x, y], ShapeOf(PickBoth(l, q)))
    ensures InBounds(Source(q.pb, lead) + [PosAt(q.rows, x), PosAt(q.cols, y)], ShapeOf(l))
    ensures Term(PickBoth(l, q), lead + [x, y], k)
         == Term(l, Source(q.pb, lead) + [PosAt(q.rows, x), PosAt(q.cols, y)], k)
  {
    hide Dense, PickT, Prod, Flat, Stretch, Source, PickedShape;
    var r := PickBoth(l, q);
    var i := lead + [x, y];
    var src := Source(q.pb, lead);
    var s := src + [PosAt(q.rows, x), PosAt(q.cols, y)];
    RequestPicks(l, q);
    SourceSplitW(l, q, lead, x, y);
    FactorIndices(r, i, k);
    FactorIndices(l, s, k);
    PickRow(l, q, lead, x, k);
    PickColumn(l, q, lead, k, y);
    assert IndexB(i, k) == lead + [x, k];
    assert IndexB(s, k) == src + [PosAt(q.rows, x), k];
    assert i[..|i| - 2] == lead && s[..|s| - 2] == src;
  }

  /** The entry of B: rows of the request, all of the rank. */
  lemma PickRow(l: Lora, q: Request, lead: Index, x: nat, k: nat)
    requires Broadcasts(l) && RequestOk(l, q) && k < Rank(l)
    requires InBounds(lead, PickedShape(q.pb)) && x < q.rows.len
    ensures var r := PickBoth(l, q); var src := Source(q.pb, lead) + [PosAt(q.rows, x), k];
      && InBounds(lead + [x, k], r.B.shape) && InBounds(src, l.B.shape)
      && At(r.B, lead + [x, k]) == At(l.B, src)
  {
    hide PickT, Prod;
    RequestPicks(l, q);
    PairSource(q.rows, All(Rank(l)), x, k);
    SourceConcat(q.pb, [q.rows, All(Rank(l))], lead, [x, k]);
    PickAt(l.B, PicksB(l, q), lead + [x, k]);
  }

  lemma LeadFits(l: Lora, q: Request, lead: Index)
    requires Broadcasts(l) && RequestOk(l, q) && InBounds(lead, PickedShape(q.pb))
    ensures |PickedShape(q.pa)| == |lead| && InBounds(Stretch(lead, PickedShape(q.pa)), PickedShape(q.pa))
  {
    hide PickT, Prod, Flat, Source, PickedShape;
    RequestPicks(l, q);
    LeadSource(LeadA(l), q.pa, q.pb, lead);
    var st := Stretch(lead, PickedShape(q.pa));
    forall j | 0 <= j < |st| ensures st[j] < PickedShape(q.pa)[j] { LeadsBroadcast(LeadA(l), q.pa, q.pb, j); }
  }

  /** The entry of A: all of the rank, columns of the request. */
  lemma PickColumn(l: Lora, q: Request, lead: Index, k: nat, y: nat)
    requires Broadcasts(l) && RequestOk(l, q) && k < Rank(l)
    requires InBounds(lead, PickedShape(q.pb)) && y < q.cols.len
    ensures var r := PickBoth(l, q);
      && |PickedShape(q.pa)| == |lead|
      && var to, from := Stretch(lead, PickedShape(q.pa)) + [k, y], Stretch(Source(q.pb, lead), LeadA(l)) + [k, PosAt(q.cols, y)];
      && InBounds(to, r.A.shape) && InBounds(from, l.A.shape)
      && At(r.A, to) == At(l.A, from)
  {
    hide PickT, Prod, Flat, Source, PickedShape;
    RequestPicks(l, q);
    LeadSource(LeadA(l), q.pa, q.pb, lead);
    var st := Stretch(lead, PickedShape(q.pa));
    PairSource(All(Rank(l)), q.cols, k, y);
    SourceConcat(q.pa, [All(Rank(l)), q.cols], st, [k, y]);
    LeadFits(l, q, lead);
    PickAt(l.A, PicksA(l, q), st + [k, y]);
  }

  lemma SourceSplitW(l: Lora, q: Request, lead: Index, x: nat, y: nat)
    requires Broadcasts(l) && RequestOk(l, q)
    requires InBounds(lead, PickedShape(q.pb)) && x < q.rows.len && y < q.cols.len
    ensures InBounds(lead + [x, y], PickedShape(PicksW(q)))
    ensures Source(PicksW(q), lead + [x, y]) == Source(q.pb, lead) + [PosAt(q.rows, x), PosAt(q.cols, y)]
    ensures InBounds(Source(PicksW(q), lead + [x, y]), ShapeOf(l))
  {
    hide Prod;
    RequestPicks(l, q);
    PairSource(q.rows, q.cols, x, y);
    SourceConcat(q.pb, [q.rows, q.cols], lead, [x, y]);
    SourceInBounds(PicksW(q), ShapeOf(l), lead + [x, y]);
  }

  /** Picking from the factors is picking from the product. */
  lemma PickMeaning(l: Lora, q: Request)
    requires Broadcasts(l) && RequestOk(l, q)
    ensures PicksOk(PicksW(q), ShapeOf(l)) && Dense(PickBoth(l, q)) == PickT(Dense(l), PicksW(q))
  {
    hide Dense, PickT, Prod, PickBoth;
    RequestPicks(l, q);
    var r := PickBoth(l, q);
    var w := PickT(Dense(l), PicksW(q));
    forall i | InBounds(i, w.shape) ensures At(Dense(r), i) == At(w, i) {
      var n := |i|;
      var lead, x, y := i[..n - 2], i[n - 2], i[n - 1];
      assert i == lead + [x, y];
      assert InBounds(lead, PickedShape(q.pb)) by {
        forall k | 0 <= k < |lead| ensures lead[k] < PickedShape(q.pb)[k] { assert i[k] < w.shape[k]; }
      }
      assert x < q.rows.len && y < q.cols.len by { assert i[n - 2] < w.shape[n - 2] && i[n - 1] < w.shape[n - 1]; }
      PickEntry(l, q, lead, x, y);
    }
    Extensional(Dense(r), w);
  }

  lemma PickEntry(l: Lora, q: Request, lead: Index, x: nat, y: nat)
    requires Broadcasts(l) && RequestOk(l, q)
    requires InBounds(lead, PickedShape(q.pb)) && x < q.rows.len && y < q.cols.len
    ensures PicksOk(PicksW(q), ShapeOf(l)) && InBounds(lead + [x, y], PickedShape(PicksW(q)))
    ensures At(Dense(PickBoth(l, q)), lead + [x, y]) == At(PickT(Dense(l), PicksW(q)), lead + [x, y])
  {
    hide Dense, PickT, Prod, PickBoth;
    RequestPicks(l, q);
    SourceSplitW(l, q, lead, x, y);
    var r := PickBoth(l, q);
    var i, s := lead + [x, y], Source(PicksW(q), lead + [x, y]);
    PickAt(Dense(l), PicksW(q), i);
    DenseAt(r, i);
    DenseAt(l, s);
    forall k: nat | k < Rank(l) ensures Term(r, i, k) == Term(l, s, k) {
      PickTerm(l, q, lead, x, y, k);
    }
    ContractEqual(r, i, l, s, Rank(l));
  }
}
