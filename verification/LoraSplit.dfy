/** Splitting a factored tensor along any axis, and gluing factored tensors back together. */
module LoraSplit {
  import opened Wrappers
  import opened Tensors
  import opened TensorOps
  import opened LoraTensor
  import opened LoraIndexing
  import opened LoraSubscript
  import opened LoraPermute

  // ---------- splitting a dense tensor ----------

  datatype SplitSize = Every(size: int) | Sections(sizes: seq<int>)

  function Sum(s: seq<nat>): nat {
    if s == [] then 0 else s[0] + Sum(s[1..])
  }

  function EvenSizes(n: nat, size: nat): (r: seq<nat>)
    requires size > 0
    ensures Sum(r) == n && |r| > 0
  {
    if n <= size then [n] else [size] + EvenSizes(n - size, size)
  }

  /** The chunk lengths of torch.split on an axis of length n. */
  function ChunkSizes(spec: SplitSize, n: nat): (r: Option<seq<nat>>)
    ensures r.Some? ==> Sum(r.value) == n
  {
    match spec
    case Every(k) =>
      if k < 0 || (k == 0 && n > 0) then None
      else if k == 0 then Some([0])
      else Some(EvenSizes(n, k))
    case Sections(ss) =>
      if AllNat(ss) && Sum(AsShape(ss)) == n then Some(AsShape(ss)) else None
  }

  function SplitT(t: Tensor, d: nat, sizes: seq<nat>, lo: nat): (r: seq<Tensor>)
    requires d < |t.shape| && lo + Sum(sizes) <= t.shape[d]
    ensures |r| == |sizes|
    decreases |sizes|
  {
    if sizes == [] then [] else [Narrow(t, d, lo, sizes[0])] + SplitT(t, d, sizes[1..], lo + sizes[0])
  }

  lemma {:induction false} NarrowSource(s: Shape, d: nat, lo: nat, len: nat, i: Index)
    requires d < |s| && |i| == |s|
    ensures var ps := FullPicks(s)[d := Range(lo, len, 1)];
      PickedShape(ps) == s[d := len] && Source(ps, i) == i[d := lo + i[d]]
  {
    var ps := FullPicks(s)[d := Range(lo, len, 1)];
    if d == 0 {
      assert ps[1..] == FullPicks(s[1..]);
      FullPickedShape(s[1..]);
      FullSource(s[1..], i[1..]);
      assert PosAt(ps[0], i[0]) == lo + i[0];
    } else {
      assert ps[1..] == FullPicks(s[1..])[d - 1 := Range(lo, len, 1)];
      NarrowSource(s[1..], d - 1, lo, len, i[1..]);
      assert PosAt(ps[0], i[0]) == i[0];
      assert s[d := len] == [s[0]] + s[1..][d - 1 := len];
      assert i[d := lo + i[d]] == [i[0]] + i[1..][d - 1 := lo + i[1..][d - 1]];
    }
  }

  lemma NarrowAt(t: Tensor, d: nat, lo: nat, len: nat, i: Index)
    requires d < |t.shape| && lo + len <= t.shape[d] && InBounds(i, t.shape[d := len])
    ensures Narrow(t, d, lo, len).shape == t.shape[d := len]
    ensures InBounds(i[d := lo + i[d]], t.shape)
    ensures At(Narrow(t, d, lo, len), i) == At(t, i[d := lo + i[d]])
  {
    hide PickT, Prod, Source, PickedShape, Flat;
    NarrowSource(t.shape, d, lo, len, i);
    PickAt(t, FullPicks(t.shape)[d := Range(lo, len, 1)], i);
  }

  lemma NarrowShape(t: Tensor, d: nat, lo: nat, len: nat)
    requires d < |t.shape| && lo + len <= t.shape[d]
    ensures Narrow(t, d, lo, len).shape == t.shape[d := len]
  {
    hide PickT, Prod, Source;
    NarrowSource(t.shape, d, lo, len, t.shape);
  }

  lemma JoinNarrow(t: Tensor, d: nat, lo: nat, x: nat, y: nat)
    requires d < |t.shape| && lo + x + y <= t.shape[d]
    ensures var a, b := Narrow(t, d, lo, x), Narrow(t, d, lo + x, y);
      Joinable(a, b, d) && Join(a, b, d) == Narrow(t, d, lo, x + y)
  {
    hide Narrow, Join, Prod, Flat, At;
    var a, b, w := Narrow(t, d, lo, x), Narrow(t, d, lo + x, y), Narrow(t, d, lo, x + y);
    NarrowShape(t, d, lo, x);
    NarrowShape(t, d, lo + x, y);
    NarrowShape(t, d, lo, x + y);
    var j := Join(a, b, d);
    assert j.shape == w.shape;
    forall i | InBounds(i, w.shape) ensures At(j, i) == At(w, i) {
      JoinAt(a, b, d, i);
      InBoth(a, b, d, i);
      NarrowAt(t, d, lo, x + y, i);
      if InFirst(i, d, x) {
        NarrowAt(t, d, lo, x, i);
      } else {
        var s := Shifted(i, d, x);
        NarrowAt(t, d, lo + x, y, s);
        assert s[d := lo + x + s[d]] == i[d := lo + i[d]];
      }
    }
    Extensional(j, w);
  }

  lemma ConsJoins(t: Tensor, ts: seq<Tensor>, d: nat)
    requires AllJoinable(ts, d) && Joinable(t, ts[0], d)
    ensures AllJoinable([t] + ts, d) && Joinable(t, JoinAll(ts, d), d)
    ensures JoinAll([t] + ts, d) == Join(t, JoinAll(ts, d), d)
  {
    hide Join;
    var all := [t] + ts;
    assert all[1..] == ts;
    forall k | 0 <= k < |all| ensures Joinable(all[0], all[k], d) {
      if k > 0 { assert Joinable(ts[0], ts[k - 1], d); }
    }
  }

  /** The chunks of a split, joined again, are the slab they were cut from. */
  lemma {:induction false} JoinSplit(t: Tensor, d: nat, sizes: seq<nat>, lo: nat)
    requires d < |t.shape| && lo + Sum(sizes) <= t.shape[d] && sizes != []
    ensures AllJoinable(SplitT(t, d, sizes, lo), d)
    ensures JoinAll(SplitT(t, d, sizes, lo), d) == Narrow(t, d, lo, Sum(sizes))
    decreases |sizes|
  {
    hide Narrow, Join, JoinAll;
    NarrowShape(t, d, lo, sizes[0]);
    if |sizes| == 1 {
      assert sizes[1..] == [] && Sum(sizes) == sizes[0];
      assert SplitT(t, d, sizes, lo) == [Narrow(t, d, lo, sizes[0])];
      OneJoins(Narrow(t, d, lo, sizes[0]), d);
    } else {
      var rest := SplitT(t, d, sizes[1..], lo + sizes[0]);
      JoinSplit(t, d, sizes[1..], lo + sizes[0]);
      NarrowShape(t, d, lo + sizes[0], sizes[1]);
      assert rest[0] == Narrow(t, d, lo + sizes[0], sizes[1]);
      ConsJoins(Narrow(t, d, lo, sizes[0]), rest, d);
      JoinNarrow(t, d, lo, sizes[0], Sum(sizes[1..]));
    }
  }

  lemma OneJoins(t: Tensor, d: nat)
    requires d < |t.shape|
    ensures AllJoinable([t], d) && JoinAll([t], d) == t
  {}

  lemma SplitRebuilds(t: Tensor, d: nat, sizes: seq<nat>)
    requires d < |t.shape| && Sum(sizes) == t.shape[d] && sizes != []
    ensures TorchCat(SplitT(t, d, sizes, 0), d) == Success(t)
  {
    hide PickT, Prod, JoinAll;
    JoinSplit(t, d, sizes, 0);
    assert FullPicks(t.shape)[d := Range(0, t.shape[d], 1)] == FullPicks(t.shape);
    FullPickIdentity(t);
  }

  // ---------- splitting the factors ----------

  /** One chunk: the factors named by onA and onB are narrowed, the other is shared. */
  function RawPiece(l: Lora, onA: bool, onB: bool, d: nat, la: nat, na: nat, lb: nat, nb: nat): RawLora
    requires d < Dims(l) && (onA ==> la + na <= l.A.shape[d]) && (onB ==> lb + nb <= l.B.shape[d])
  {
    RawLora(if onA then Narrow(l.A, d, la, na) else l.A, if onB then Narrow(l.B, d, lb, nb) else l.B)
  }

  lemma PieceAgrees(l: Lora, onA: bool, onB: bool, d: nat, la: nat, na: nat, lb: nat, nb: nat)
    requires d < Dims(l) && (onA ==> la + na <= l.A.shape[d]) && (onB ==> lb + nb <= l.B.shape[d])
    requires (onA ==> d != Dims(l) - 2) && (onB ==> d != Dims(l) - 1)
    ensures var p := RawPiece(l, onA, onB, d, la, na, lb, nb); FactorsAgree(p.A, p.B)
  {
    hide Narrow, Prod;
    if onA { NarrowShape(l.A, d, la, na); }
    if onB { NarrowShape(l.B, d, lb, nb); }
  }

  /** The chunks in order; when both factors are cut their chunks are zipped. */
  function Pieces(l: Lora, onA: bool, onB: bool, d: nat, sa: seq<nat>, sb: seq<nat>, la: nat, lb: nat): (r: seq<Lora>)
    requires d < Dims(l) && (onA ==> la + Sum(sa) <= l.A.shape[d]) && (onB ==> lb + Sum(sb) <= l.B.shape[d])
    requires (onA ==> d != Dims(l) - 2) && (onB ==> d != Dims(l) - 1)
    ensures |r| == if |sa| < |sb| then |sa| else |sb|
    decreases |sa|
  {
    if sa == [] || sb == [] then []
    else
      PieceAgrees(l, onA, onB, d, la, sa[0], lb, sb[0]);
      [RawPiece(l, onA, onB, d, la, sa[0], lb, sb[0])]
      + Pieces(l, onA, onB, d, sa[1..], sb[1..], la + sa[0], lb + sb[0])
  }

  /** split along axis d. */
  function SplitAxis(l: Lora, spec: SplitSize, d: nat): Result<seq<Lora>>
    requires d < Dims(l)
  {
    var n := Dims(l);
    if d == n - 1 then
      var s := ChunkSizes(spec, l.A.shape[d]);
      if s.Some? then Success(Pieces(l, true, false, d, s.value, s.value, 0, 0)) else Failure
    else
      var s := ChunkSizes(spec, l.B.shape[d]);
      if s.None? then Failure
      else if d == n - 2 || l.A.shape[d] == 1 then Success(Pieces(l, false, true, d, s.value, s.value, 0, 0))
      else
        var sa := ChunkSizes(spec, l.A.shape[d]);
        if sa.Some? then Success(Pieces(l, true, true, d, sa.value, s.value, 0, 0)) else Failure
  }

  /** Chunks that the constructor has yet to accept. */
  function RawPieces(l: Lora, onA: bool, d: nat, sa: seq<nat>, sb: seq<nat>, la: nat, lb: nat): seq<RawLora>
    requires d < Dims(l) && (onA ==> la + Sum(sa) <= l.A.shape[d]) && lb + Sum(sb) <= l.B.shape[d]
    decreases |sa|
  {
    if sa == [] || sb == [] then []
    else [RawPiece(l, onA, true, d, la, sa[0], lb, sb[0])] + RawPieces(l, onA, d, sa[1..], sb[1..], la + sa[0], lb + sb[0])
  }

  function Checked(rs: seq<RawLora>): Result<seq<Lora>> {
    if AllAgree(rs) then Success(rs) else Failure
  }

  /** An axis that is still negative after the number of axes was added: both factors are cut along it,
      whichever axis it is of them. */
  function SplitWrapped(l: Lora, spec: SplitSize, d: nat): Result<seq<Lora>>
    requires d < Dims(l)
  {
    var s := ChunkSizes(spec, l.B.shape[d]);
    if s.None? then Failure
    else if l.A.shape[d] == 1 then Checked(RawPieces(l, false, d, s.value, s.value, 0, 0))
    else
      var sa := ChunkSizes(spec, l.A.shape[d]);
      if sa.Some? then Checked(RawPieces(l, true, d, sa.value, s.value, 0, 0)) else Failure
  }

  /** split for any axis number. */
  function Split(l: Lora, spec: SplitSize, dim: int): Result<seq<Lora>> {
    var n := Dims(l);
    var d: int := if dim < 0 then dim + n else dim;
    if 0 <= d < n then SplitAxis(l, spec, d)
    else if d < 0 <= d + n then SplitWrapped(l, spec, d + n)
    else Failure
  }

  function TorchSplit(t: Tensor, spec: SplitSize, dim: int): Result<seq<Tensor>> {
    if !AxisOk(dim, |t.shape|) then Failure
    else
      var d := NormalAxis(dim, |t.shape|);
      var s := ChunkSizes(spec, t.shape[d]);
      if s.Some? then Success(SplitT(t, d, s.value, 0)) else Failure
  }

  /** Which factors a split of a broadcasting tensor cuts. */
  predicate Cuts(l: Lora, onA: bool, onB: bool, d: nat) {
    var n := Dims(l);
    d < n && onA == (d != n - 2 && (d == n - 1 || l.A.shape[d] != 1)) && onB == (d != n - 1)
  }

  /** A factor of a chunk as a pick. */
  lemma FactorPick(t: Tensor, on: bool, d: nat, lo: nat, len: nat)
    requires d < |t.shape| && (on ==> lo + len <= t.shape[d])
    ensures PickT(t, FullPicks(t.shape)[d := if on then Range(lo, len, 1) else All(t.shape[d])]) == if on then Narrow(t, d, lo, len) else t
    ensures PickT(t, FullPicks(t.shape)) == t
  {
    hide PickT, Prod;
    FullPickIdentity(t);
    if !on { assert FullPicks(t.shape)[d := All(t.shape[d])] == FullPicks(t.shape); }
  }

  /** A chunk of the factors is the chunk of the product. */
  lemma PieceMeaning(l: Lora, onA: bool, onB: bool, d: nat, lo: nat, len: nat)
    requires Broadcasts(l) && Cuts(l, onA, onB, d) && lo + len <= ShapeOf(l)[d]
    ensures (onA ==> lo + len <= l.A.shape[d]) && (onB ==> lo + len <= l.B.shape[d])
    ensures var p := RawPiece(l, onA, onB, d, lo, len, lo, len);
      FactorsAgree(p.A, p.B) && Broadcasts(p) && Dense(p) == Narrow(Dense(l), d, lo, len)
  {
    hide PickT, Prod, Dense, PickBoth, PickedShape, RequestOk, AxisAgrees, PicksA, PicksB, PicksW;
    var r := Range(lo, len, 1);
    var pa := if onA then r else All(l.A.shape[d]);
    if d < Dims(l) - 2 { RangeAgrees(l.A.shape[d], l.B.shape[d], lo, len); }
    AxisRequestOk(l, d, pa, r);
    AxisRequestPicks(l, d, pa, r);
    var q := AxisRequest(l, d, pa, r);
    PickMeaning(l, q);
    PickBothIs(l, q);
    PieceAgrees(l, onA, onB, d, lo, len, lo, len);
    FactorPick(l.A, onA, d, lo, len);
    FactorPick(l.B, onB, d, lo, len);
  }

  lemma RangeAgrees(a: nat, b: nat, lo: nat, len: nat)
    requires a == 1 || a == b
    ensures AxisAgrees(a, if a == 1 then All(1) else Range(lo, len, 1), Range(lo, len, 1))
  {
    var pa, pb := if a == 1 then All(1) else Range(lo, len, 1), Range(lo, len, 1);
    forall i: nat | i < len ensures SamePosition(a, pa, pb, i) {}
  }

  lemma {:induction false} PiecesMeaning(l: Lora, onA: bool, onB: bool, d: nat, s: seq<nat>, lo: nat, k: nat)
    requires Broadcasts(l) && Cuts(l, onA, onB, d) && lo + Sum(s) <= ShapeOf(l)[d]
    requires (onA ==> lo + Sum(s) <= l.A.shape[d]) && (onB ==> lo + Sum(s) <= l.B.shape[d]) && k < |s|
    ensures var c := Pieces(l, onA, onB, d, s, s, lo, lo)[k];
      Broadcasts(c) && Dense(c) == SplitT(Dense(l), d, s, lo)[k]
    decreases |s|
  {
    hide Dense, Narrow, RawPiece, Broadcasts, FactorsAgree, ShapeOf, Cuts;
    if k == 0 {
      PieceMeaning(l, onA, onB, d, lo, s[0]);
    } else {
      PiecesMeaning(l, onA, onB, d, s[1..], lo + s[0], k - 1);
    }
  }

  /** Every chunk of the factors stands for the chunk of the product at the same place, and the
      chunks of the product, concatenated, are the product. */
  lemma SplitAxisMeaning(l: Lora, spec: SplitSize, d: nat)
    requires Broadcasts(l) && d < Dims(l)
    ensures var cs, ws := SplitAxis(l, spec, d), TorchSplit(Dense(l), spec, d);
      && cs.Success? == ws.Success?
      && (cs.Success? ==> ChunksMatch(cs.value, ws.value) && (cs.value != [] ==> TorchCat(ws.value, d) == Success(Dense(l))))
  {
    hide Dense, SplitT, TorchCat, Broadcasts, Narrow, RawPiece, FactorsAgree, EvenSizes, Sum;
    var n := Dims(l);
    var sizes := ChunkSizes(spec, ShapeOf(l)[d]);
    var onA, onB := d != n - 2 && (d == n - 1 || l.A.shape[d] != 1), d != n - 1;
    LeadLengths(l, d);
    if sizes.Some? {
      var s := sizes.value;
      assert SplitAxis(l, spec, d) == Success(Pieces(l, onA, onB, d, s, s, 0, 0));
      forall k | 0 <= k < |s|
        ensures var c := Pieces(l, onA, onB, d, s, s, 0, 0)[k]; Broadcasts(c) && Dense(c) == SplitT(Dense(l), d, s, 0)[k]
      {
        PiecesMeaning(l, onA, onB, d, s, 0, k);
      }
      if s != [] { SplitRebuilds(Dense(l), d, s); }
    }
  }

  predicate ChunksMatch(cs: seq<Lora>, ws: seq<Tensor>) {
    && |cs| == |ws|
    && forall k :: 0 <= k < |cs| ==> Broadcasts(cs[k]) && Dense(cs[k]) == ws[k]
  }

  /** For any axis number: the split of the factors is the split of the product. Axis numbers that
      torch refuses are refused, but for some far below zero. */
  lemma SplitMeaning(l: Lora, spec: SplitSize, dim: int)
    requires Broadcasts(l)
    ensures var cs, ws := Split(l, spec, dim), TorchSplit(Dense(l), spec, dim);
      if AxisOk(dim, Dims(l)) then
        && cs.Success? == ws.Success?
        && (cs.Success? ==>
              && ChunksMatch(cs.value, ws.value)
              && (cs.value != [] ==> TorchCat(ws.value, NormalAxis(dim, Dims(l))) == Success(Dense(l))))
      else ws.Failure? && (cs.Success? ==> dim + Dims(l) < 0 <= dim + 2 * Dims(l))
  {
    hide Dense, SplitT, TorchCat, Broadcasts, SplitWrapped, SplitAxis, ChunksMatch, ChunkSizes;
    var n := Dims(l);
    if AxisOk(dim, n) { SplitAxisMeaning(l, spec, NormalAxis(dim, n)); }
  }

  /** Cutting the rank axis of one factor leaves a tensor only where the whole rank stays in the chunk. */
  predicate KeepsRank(l: Lora, onA: bool, d: nat, sa: seq<nat>, sb: seq<nat>) {
    && (onA && d == Dims(l) - 2 ==> forall k :: 0 <= k < |sa| && k < |sb| ==> sa[k] == Rank(l))
    && (d == Dims(l) - 1 ==> forall k :: 0 <= k < |sa| && k < |sb| ==> sb[k] == Rank(l))
  }

  lemma PieceKeepsRank(l: Lora, onA: bool, d: nat, la: nat, na: nat, lb: nat, nb: nat)
    requires d < Dims(l) && (onA ==> la + na <= l.A.shape[d]) && lb + nb <= l.B.shape[d]
    ensures var p := RawPiece(l, onA, true, d, la, na, lb, nb);
      FactorsAgree(p.A, p.B) <==> (onA && d == Dims(l) - 2 ==> na == Rank(l)) && (d == Dims(l) - 1 ==> nb == Rank(l))
  {
    hide Narrow;
    if onA { NarrowShape(l.A, d, la, na); }
    NarrowShape(l.B, d, lb, nb);
  }

  predicate AllAgree(rs: seq<RawLora>) {
    forall k :: 0 <= k < |rs| ==> FactorsAgree(rs[k].A, rs[k].B)
  }

  lemma AllAgreeCons(r: RawLora, rs: seq<RawLora>)
    ensures AllAgree([r] + rs) <==> FactorsAgree(r.A, r.B) && AllAgree(rs)
  {
    var all := [r] + rs;
    if AllAgree(all) {
      assert FactorsAgree(all[0].A, all[0].B);
      forall k | 0 <= k < |rs| ensures FactorsAgree(rs[k].A, rs[k].B) { assert all[k + 1] == rs[k]; }
    }
  }

  lemma KeepsRankCons(l: Lora, onA: bool, d: nat, sa: seq<nat>, sb: seq<nat>)
    requires sa != [] && sb != []
    ensures KeepsRank(l, onA, d, sa, sb) <==>
      && (onA && d == Dims(l) - 2 ==> sa[0] == Rank(l))
      && (d == Dims(l) - 1 ==> sb[0] == Rank(l))
      && KeepsRank(l, onA, d, sa[1..], sb[1..])
  {
    assert forall k :: 1 <= k < |sa| ==> sa[k] == sa[1..][k - 1];
    assert forall k :: 1 <= k < |sb| ==> sb[k] == sb[1..][k - 1];
  }

  lemma {:induction false} RawPiecesAgree(l: Lora, onA: bool, d: nat, sa: seq<nat>, sb: seq<nat>, la: nat, lb: nat)
    requires d < Dims(l) && (onA ==> la + Sum(sa) <= l.A.shape[d]) && lb + Sum(sb) <= l.B.shape[d]
    ensures AllAgree(RawPieces(l, onA, d, sa, sb, la, lb)) <==> KeepsRank(l, onA, d, sa, sb)
    decreases |sa|
  {
    hide RawPiece, FactorsAgree;
    if sa != [] && sb != [] {
      PieceKeepsRank(l, onA, d, la, sa[0], lb, sb[0]);
      RawPiecesAgree(l, onA, d, sa[1..], sb[1..], la + sa[0], lb + sb[0]);
      AllAgreeCons(RawPiece(l, onA, true, d, la, sa[0], lb, sb[0]), RawPieces(l, onA, d, sa[1..], sb[1..], la + sa[0], lb + sb[0]));
      KeepsRankCons(l, onA, d, sa, sb);
    }
  }

  lemma {:induction false} RawPiecesAre(l: Lora, onA: bool, d: nat, sa: seq<nat>, sb: seq<nat>, la: nat, lb: nat)
    requires d < Dims(l) - 1 && (onA ==> d != Dims(l) - 2)
    requires (onA ==> la + Sum(sa) <= l.A.shape[d]) && lb + Sum(sb) <= l.B.shape[d]
    ensures RawPieces(l, onA, d, sa, sb, la, lb) == Pieces(l, onA, true, d, sa, sb, la, lb)
    decreases |sa|
  {
    hide RawPiece;
    if sa != [] && sb != [] { RawPiecesAre(l, onA, d, sa[1..], sb[1..], la + sa[0], lb + sb[0]); }
  }

  /** Axes so far below zero that torch refuses them: a leading axis, or the rows at rank one, is split as
      if it had been named properly; otherwise the rank is cut, and accepted only where that changes nothing. */
  lemma SplitFarBelow(l: Lora, spec: SplitSize, d: nat)
    requires d < Dims(l)
    ensures var n := Dims(l); var r := Split(l, spec, d - 2 * n);
      && (d < n - 2 || (d == n - 2 && Rank(l) == 1) ==> r == Split(l, spec, d))
      && var sb := ChunkSizes(spec, l.B.shape[d]);
         var sa := if l.A.shape[d] == 1 then sb else ChunkSizes(spec, l.A.shape[d]);
         r.Success? <==> sa.Some? && sb.Some? && KeepsRank(l, l.A.shape[d] != 1, d, sa.value, sb.value)
  {
    hide Pieces, RawPieces, ChunkSizes, AllAgree;
    var n, onA := Dims(l), l.A.shape[d] != 1;
    var sb := ChunkSizes(spec, l.B.shape[d]);
    var sa := if onA then ChunkSizes(spec, l.A.shape[d]) else sb;
    assert Split(l, spec, d - 2 * n) == SplitWrapped(l, spec, d) && Split(l, spec, d) == SplitAxis(l, spec, d);
    if sa.Some? && sb.Some? {
      RawPiecesAgree(l, onA, d, sa.value, sb.value, 0, 0);
      if d < n - 2 || (d == n - 2 && Rank(l) == 1) { RawPiecesAre(l, onA, d, sa.value, sb.value, 0, 0); }
    }
  }

  lemma NarrowAll(t: Tensor, d: nat)
    requires d < |t.shape|
    ensures Narrow(t, d, 0, t.shape[d]) == t
  {
    hide PickT, Prod;
    assert FullPicks(t.shape)[d := Range(0, t.shape[d], 1)] == FullPicks(t.shape);
    FullPickIdentity(t);
  }

  /** The rank axis is in the chunk as a whole: what the chunk then stands for. */
  lemma FarChunkMeaning(l: Lora, onA: bool, d: nat, la: nat, na: nat, lb: nat, nb: nat)
    requires Broadcasts(l) && Dims(l) - 2 <= d < Dims(l) && (onA <==> l.A.shape[d] != 1)
    requires (onA ==> la + na <= l.A.shape[d]) && lb + nb <= l.B.shape[d]
    requires (onA && d == Dims(l) - 2 ==> na == Rank(l)) && (d == Dims(l) - 1 ==> nb == Rank(l))
    ensures var c := RawPiece(l, onA, true, d, la, na, lb, nb);
      && FactorsAgree(c.A, c.B) && Broadcasts(c)
      && Dense(c) == if d == Dims(l) - 2 then Narrow(Dense(l), d, lb, nb) else if onA then Narrow(Dense(l), d, la, na) else Dense(l)
  {
    hide Narrow, Dense, Prod, Broadcasts;
    LeadLengths(l, d);
    if d == Dims(l) - 2 {
      if onA { NarrowAll(l.A, d); }
      PieceMeaning(l, false, true, d, lb, nb);
    } else {
      NarrowAll(l.B, d);
      if onA { PieceMeaning(l, true, false, d, la, na); }
    }
  }

  lemma {:induction false} FarPiecesMeaning(l: Lora, onA: bool, d: nat, sa: seq<nat>, sb: seq<nat>, la: nat, lb: nat, k: nat)
    requires Broadcasts(l) && Dims(l) - 2 <= d < Dims(l) && (onA <==> l.A.shape[d] != 1)
    requires (onA ==> la + Sum(sa) <= l.A.shape[d]) && lb + Sum(sb) <= l.B.shape[d]
    requires KeepsRank(l, onA, d, sa, sb) && k < |sa| && k < |sb|
    ensures |RawPieces(l, onA, d, sa, sb, la, lb)| == if |sa| < |sb| then |sa| else |sb|
    ensures d == Dims(l) - 2 ==> lb + Sum(sb) <= ShapeOf(l)[d]
    ensures d == Dims(l) - 1 && onA ==> la + Sum(sa) <= ShapeOf(l)[d]
    ensures var c := RawPieces(l, onA, d, sa, sb, la, lb)[k];
      && FactorsAgree(c.A, c.B) && Broadcasts(c)
      && Dense(c) == if d == Dims(l) - 2 then SplitT(Dense(l), d, sb, lb)[k]
                     else if onA then SplitT(Dense(l), d, sa, la)[k] else Dense(l)
    decreases |sa|
  {
    hide Dense, Narrow, RawPiece, Broadcasts, FactorsAgree, KeepsRank, ShapeOf, Prod, Join, At, Flat;
    LeadLengths(l, d);
    KeepsRankCons(l, onA, d, sa, sb);
    RawPiecesLength(l, onA, d, sa, sb, la, lb);
    if k == 0 {
      FarChunkMeaning(l, onA, d, la, sa[0], lb, sb[0]);
    } else {
      FarPiecesMeaning(l, onA, d, sa[1..], sb[1..], la + sa[0], lb + sb[0], k - 1);
    }
  }

  lemma {:induction false} RawPiecesLength(l: Lora, onA: bool, d: nat, sa: seq<nat>, sb: seq<nat>, la: nat, lb: nat)
    requires d < Dims(l) && (onA ==> la + Sum(sa) <= l.A.shape[d]) && lb + Sum(sb) <= l.B.shape[d]
    ensures |RawPieces(l, onA, d, sa, sb, la, lb)| == if |sa| < |sb| then |sa| else |sb|
    decreases |sa|
  {
    hide RawPiece;
    if sa != [] && sb != [] { RawPiecesLength(l, onA, d, sa[1..], sb[1..], la + sa[0], lb + sb[0]); }
  }

  /** What the chunks stand for when the axis is so far below zero: the rows or columns of the product cut as if
      the axis had been named properly, or the whole product where A has a single column. */
  lemma SplitFarMeaning(l: Lora, spec: SplitSize, d: nat)
    requires Broadcasts(l) && Dims(l) - 2 <= d < Dims(l) && Split(l, spec, d - 2 * Dims(l)).Success?
    ensures var cs := Split(l, spec, d - 2 * Dims(l)).value;
      && (d == Dims(l) - 1 && Cols(l) == 1 ==> forall k :: 0 <= k < |cs| ==> Broadcasts(cs[k]) && Dense(cs[k]) == Dense(l))
      && (d == Dims(l) - 2 || Cols(l) != 1 ==>
            var ws := TorchSplit(Dense(l), spec, d);
            && ws.Success? && |cs| <= |ws.value|
            && forall k :: 0 <= k < |cs| ==> Broadcasts(cs[k]) && Dense(cs[k]) == ws.value[k])
  {
    hide Dense, RawPieces, ChunkSizes, SplitT, Broadcasts;
    var n, onA := Dims(l), l.A.shape[d] != 1;
    SplitFarBelow(l, spec, d);
    LeadLengths(l, d);
    var sb := ChunkSizes(spec, l.B.shape[d]).value;
    var sa := if onA then ChunkSizes(spec, l.A.shape[d]).value else sb;
    var cs := Split(l, spec, d - 2 * n).value;
    assert cs == RawPieces(l, onA, d, sa, sb, 0, 0);
    RawPiecesLength(l, onA, d, sa, sb, 0, 0);
    forall k | 0 <= k < |cs|
      ensures Broadcasts(cs[k]) && (d == n - 1 && !onA ==> Dense(cs[k]) == Dense(l))
      ensures (d == n - 2 || onA) ==> Dense(cs[k]) == TorchSplit(Dense(l), spec, d).value[k]
    {
      FarPiecesMeaning(l, onA, d, sa, sb, 0, 0, k);
    }
  }

  lemma LeadLengths(l: Lora, d: nat)
    requires Broadcasts(l) && d < Dims(l)
    ensures d == Dims(l) - 1 ==> ShapeOf(l)[d] == l.A.shape[d]
    ensures d != Dims(l) - 1 ==> ShapeOf(l)[d] == l.B.shape[d]
    ensures d < Dims(l) - 2 && l.A.shape[d] != 1 ==> l.A.shape[d] == l.B.shape[d]
  {}

  // ---------- concatenation ----------

  function FactorsA(ls: seq<Lora>): (r: seq<Tensor>)
    ensures |r| == |ls|
  {
    seq(|ls|, k requires 0 <= k < |ls| => ls[k].A)
  }

  function FactorsB(ls: seq<Lora>): (r: seq<Tensor>)
    ensures |r| == |ls|
  {
    seq(|ls|, k requires 0 <= k < |ls| => ls[k].B)
  }

  function Denses(ls: seq<Lora>): (r: seq<Tensor>)
    requires forall k :: 0 <= k < |ls| ==> Broadcasts(ls[k])
    ensures |r| == |ls|
  {
    seq(|ls|, k requires 0 <= k < |ls| => Dense(ls[k]))
  }

  /** torch.cat along axis 0: beyond matrices both factors are concatenated, matrices must share A. */
  function Cat(ls: seq<Lora>): Result<Lora> {
    if ls == [] then Failure
    else if Dims(ls[0]) > 2 then
      var a, b := TorchCat(FactorsA(ls), 0), TorchCat(FactorsB(ls), 0);
      if a.Success? && b.Success? then Make(a.value, b.value) else Failure
    else if forall k :: 1 <= k < |ls| ==> ls[k].A == ls[0].A then
      var b := TorchCat(FactorsB(ls), 0);
      if b.Success? then Make(ls[0].A, b.value) else Failure
    else Failure
  }

  /** Stacking two tensors that each have their own first axis in A. */
  predicate OwnFirstAxis(l: Lora) {
    Dims(l) > 2 && Broadcasts(l) && l.A.shape[0] == l.B.shape[0]
  }

  predicate Gluable(x: Lora, y: Lora) {
    OwnFirstAxis(x) && OwnFirstAxis(y) && Joinable(x.A, y.A, 0) && Joinable(x.B, y.B, 0)
  }

  lemma GlueFacts(x: Lora, y: Lora)
    requires Gluable(x, y)
    ensures FactorsAgree(Join(x.A, y.A, 0), Join(x.B, y.B, 0))
    ensures var r: Lora := RawLora(Join(x.A, y.A, 0), Join(x.B, y.B, 0));
      && OwnFirstAxis(r) && Rank(r) == Rank(x) == Rank(y)
      && ShapeOf(r) == ShapeOf(x)[0 := ShapeOf(x)[0] + ShapeOf(y)[0]]
    ensures |ShapeOf(x)| == |ShapeOf(y)| && forall k :: 1 <= k < |ShapeOf(x)| ==> ShapeOf(x)[k] == ShapeOf(y)[k]
  {
    hide Join, Prod;
    var a, b := Join(x.A, y.A, 0), Join(x.B, y.B, 0);
    forall k | 1 <= k < |x.A.shape|
      ensures a.shape[k] == x.A.shape[k] == y.A.shape[k] && b.shape[k] == x.B.shape[k] == y.B.shape[k]
    {}
  }

  function Glue(x: Lora, y: Lora): (r: Lora)
    requires Gluable(x, y)
    ensures OwnFirstAxis(r) && Rank(r) == Rank(x) == Rank(y)
    ensures ShapeOf(r) == ShapeOf(x)[0 := ShapeOf(x)[0] + ShapeOf(y)[0]]
    ensures |ShapeOf(x)| == |ShapeOf(y)| && forall k :: 1 <= k < |ShapeOf(x)| ==> ShapeOf(x)[k] == ShapeOf(y)[k]
  {
    GlueFacts(x, y);
    RawLora(Join(x.A, y.A, 0), Join(x.B, y.B, 0))
  }

  lemma GlueIndex(x: Lora, y: Lora, i: Index)
    requires Gluable(x, y) && InBounds(i, ShapeOf(Glue(x, y)))
    ensures var n := ShapeOf(x)[0];
      if InFirst(i, 0, n) then InBounds(i, ShapeOf(x)) else InBounds(Shifted(i, 0, n), ShapeOf(y))
  {
    hide Prod, Join;
    var s := ShapeOf(Glue(x, y));
    assert forall k :: 0 <= k < |s| ==> i[k] < s[k];
  }

  lemma GlueTerm(x: Lora, y: Lora, i: Index, k: nat)
    requires Gluable(x, y) && InBounds(i, ShapeOf(Glue(x, y))) && k < Rank(x)
    ensures var n := ShapeOf(x)[0]; var r := Glue(x, y);
      if InFirst(i, 0, n) then InBounds(i, ShapeOf(x)) && Term(r, i, k) == Term(x, i, k)
      else InBounds(Shifted(i, 0, n), ShapeOf(y)) && Term(r, i, k) == Term(y, Shifted(i, 0, n), k)
  {
    hide Prod, Join, Flat, Stretch;
    var r, n := Glue(x, y), ShapeOf(x)[0];
    GlueIndex(x, y, i);
    FactorIndices(r, i, k);
    var ib, ia := IndexB(i, k), IndexA(i, LeadA(r), k);
    JoinAt(x.B, y.B, 0, ib);
    JoinAt(x.A, y.A, 0, ia);
    assert ib[0] == i[0];
    GlueStretch(x, y, i);
    if InFirst(i, 0, n) {
      FactorIndices(x, i, k);
    } else {
      var s := Shifted(i, 0, n);
      FactorIndices(y, s, k);
      assert Shifted(ib, 0, n) == IndexB(s, k);
      assert Shifted(ia, 0, n) == IndexA(s, LeadA(y), k);
    }
  }

  lemma GlueStretch(x: Lora, y: Lora, i: Index)
    requires Gluable(x, y) && InBounds(i, ShapeOf(Glue(x, y)))
    ensures var n, m := ShapeOf(x)[0], |i| - 2; var st := Stretch(i[..m], LeadA(Glue(x, y)));
      && st[0] == i[0]
      && (InFirst(i, 0, n) ==> st == Stretch(i[..m], LeadA(x)))
      && (!InFirst(i, 0, n) ==> Shifted(st, 0, n) == Stretch(Shifted(i, 0, n)[..m], LeadA(y)))
  {
    hide Prod, Join, Flat;
    GlueIndex(x, y, i);
    var n, m := ShapeOf(x)[0], |i| - 2;
    var lead := LeadA(Glue(x, y));
    assert i[0] < ShapeOf(Glue(x, y))[0];
    assert forall k :: 1 <= k < m ==> lead[k] == LeadA(x)[k] == LeadA(y)[k];
    if InFirst(i, 0, n) {
      assert i[0] < ShapeOf(x)[0];
      assert Stretch(i[..m], lead) == Stretch(i[..m], LeadA(x));
    } else {
      var s := Shifted(i, 0, n);
      assert s[0] < ShapeOf(y)[0];
      assert Shifted(Stretch(i[..m], lead), 0, n) == Stretch(s[..m], LeadA(y));
    }
  }

  /** Gluing the factors glues the products. */
  lemma GlueMeaning(x: Lora, y: Lora)
    requires Gluable(x, y)
    ensures Joinable(Dense(x), Dense(y), 0) && Dense(Glue(x, y)) == Join(Dense(x), Dense(y), 0)
  {
    hide Prod, Join, Dense, Glue;
    var r, n := Glue(x, y), ShapeOf(x)[0];
    var w := Join(Dense(x), Dense(y), 0);
    forall i | InBounds(i, w.shape) ensures At(Dense(r), i) == At(w, i) {
      JoinAt(Dense(x), Dense(y), 0, i);
      InBoth(Dense(x), Dense(y), 0, i);
      DenseAt(r, i);
      var j := if InFirst(i, 0, n) then i else Shifted(i, 0, n);
      var p := if InFirst(i, 0, n) then x else y;
      DenseAt(p, j);
      forall k: nat | k < Rank(r) ensures Term(r, i, k) == Term(p, j, k) {
        GlueTerm(x, y, i, k);
      }
      ContractEqual(r, i, p, j, Rank(r));
    }
    Extensional(Dense(r), w);
  }

  lemma CatTail(ls: seq<Lora>)
    requires |ls| > 1
    ensures FactorsA(ls)[1..] == FactorsA(ls[1..]) && FactorsB(ls)[1..] == FactorsB(ls[1..])
  {}

  lemma JoinableTail(ts: seq<Tensor>)
    requires AllJoinable(ts, 0) && |ts| > 1
    ensures AllJoinable(ts[1..], 0) && Joinable(ts[0], JoinAll(ts[1..], 0), 0)
    ensures JoinAll(ts, 0) == Join(ts[0], JoinAll(ts[1..], 0), 0)
  {
    assert Joinable(ts[0], ts[1], 0);
    forall k | 0 <= k < |ts| - 1 ensures Joinable(ts[1..][0], ts[1..][k], 0) {
      assert Joinable(ts[0], ts[k + 1], 0);
    }
  }

  /** Concatenating factors whose A has its own first axis concatenates the products. */
  lemma {:induction false} CatGlues(ls: seq<Lora>) returns (r: Lora)
    requires ls != [] && (forall k :: 0 <= k < |ls| ==> Broadcasts(ls[k])) && (forall k :: 0 <= k < |ls| ==> OwnFirstAxis(ls[k]))
    requires AllJoinable(FactorsA(ls), 0) && AllJoinable(FactorsB(ls), 0)
    ensures r.A == JoinAll(FactorsA(ls), 0) && r.B == JoinAll(FactorsB(ls), 0) && OwnFirstAxis(r)
    ensures AllJoinable(Denses(ls), 0) && Dense(r) == JoinAll(Denses(ls), 0)
    decreases |ls|
  {
    hide Prod, Join, Dense;
    if |ls| > 1 {
      CatTail(ls);
      JoinableTail(FactorsA(ls));
      JoinableTail(FactorsB(ls));
      var rest := CatGlues(ls[1..]);
      assert Gluable(ls[0], rest);
      GlueMeaning(ls[0], rest);
      JoinDenses(ls, rest);
      GlueFactors(ls[0], rest);
      r := Glue(ls[0], rest);
    } else {
      r := ls[0];
      assert Denses(ls) == [Dense(r)];
    }
  }

  lemma GlueFactors(x: Lora, y: Lora)
    requires Gluable(x, y)
    ensures Glue(x, y).A == Join(x.A, y.A, 0) && Glue(x, y).B == Join(x.B, y.B, 0)
  {
    hide Prod, Join;
  }

  lemma JoinDenses(ls: seq<Lora>, rest: Lora)
    requires |ls| > 1 && (forall k :: 0 <= k < |ls| ==> Broadcasts(ls[k])) && Broadcasts(rest)
    requires AllJoinable(Denses(ls[1..]), 0) && Dense(rest) == JoinAll(Denses(ls[1..]), 0)
    requires Joinable(Dense(ls[0]), Dense(rest), 0)
    ensures AllJoinable(Denses(ls), 0)
    ensures JoinAll(Denses(ls), 0) == Join(Dense(ls[0]), Dense(rest), 0)
  {
    hide Prod, Join, Dense;
    var ts := Denses(ls);
    assert ts[1..] == Denses(ls[1..]);
    assert Joinable(ts[1], Dense(rest), 0);
    forall k | 0 <= k < |ts| ensures Joinable(ts[0], ts[k], 0) {
      if k > 0 { assert Joinable(ts[1..][0], ts[1..][k - 1], 0); }
    }
  }

  // ---------- matrices sharing A ----------

  predicate Matrix(l: Lora) { Dims(l) == 2 }

  function GlueRows(x: Lora, y: Lora): (r: Lora)
    requires Matrix(x) && Matrix(y) && x.A == y.A && Joinable(x.B, y.B, 0)
    ensures Matrix(r) && Rank(r) == Rank(x) == Rank(y) && r.A == x.A
    ensures ShapeOf(r) == ShapeOf(x)[0 := ShapeOf(x)[0] + ShapeOf(y)[0]]
    ensures ShapeOf(x)[1] == ShapeOf(y)[1]
  {
    RawLora(x.A, Join(x.B, y.B, 0))
  }

  lemma GlueRowsTerm(x: Lora, y: Lora, i: Index, k: nat)
    requires Matrix(x) && Matrix(y) && x.A == y.A && Joinable(x.B, y.B, 0)
    requires InBounds(i, ShapeOf(GlueRows(x, y))) && k < Rank(x)
    ensures var n := ShapeOf(x)[0]; var r := GlueRows(x, y);
      if InFirst(i, 0, n) then InBounds(i, ShapeOf(x)) && Term(r, i, k) == Term(x, i, k)
      else InBounds(Shifted(i, 0, n), ShapeOf(y)) && Term(r, i, k) == Term(y, Shifted(i, 0, n), k)
  {
    hide Prod, Join, Flat;
    var r, n := GlueRows(x, y), ShapeOf(x)[0];
    FactorIndices(r, i, k);
    JoinAt(x.B, y.B, 0, IndexB(i, k));
    InBoth(x.B, y.B, 0, IndexB(i, k));
    assert i[0] < ShapeOf(r)[0] && i[1] < ShapeOf(r)[1];
    if InFirst(i, 0, n) {
      FactorIndices(x, i, k);
    } else {
      var s := Shifted(i, 0, n);
      FactorIndices(y, s, k);
      assert Shifted(IndexB(i, k), 0, n) == IndexB(s, k);
      assert IndexA(s, LeadA(y), k) == IndexA(i, LeadA(r), k);
    }
  }

  lemma GlueRowsMeaning(x: Lora, y: Lora)
    requires Matrix(x) && Matrix(y) && x.A == y.A && Joinable(x.B, y.B, 0)
    ensures Joinable(Dense(x), Dense(y), 0) && Dense(GlueRows(x, y)) == Join(Dense(x), Dense(y), 0)
  {
    hide Prod, Join, Dense, GlueRows, At, Flat, Term, Contract, FactorsAgree, ShapeOf;
    var r, n := GlueRows(x, y), ShapeOf(x)[0];
    var w := Join(Dense(x), Dense(y), 0);
    forall i | InBounds(i, w.shape) ensures At(Dense(r), i) == At(w, i) {
      JoinAt(Dense(x), Dense(y), 0, i);
      InBoth(Dense(x), Dense(y), 0, i);
      DenseAt(r, i);
      var j := if InFirst(i, 0, n) then i else Shifted(i, 0, n);
      var p := if InFirst(i, 0, n) then x else y;
      DenseAt(p, j);
      forall k: nat | k < Rank(r) ensures Term(r, i, k) == Term(p, j, k) {
        GlueRowsTerm(x, y, i, k);
      }
      ContractEqual(r, i, p, j, Rank(r));
    }
    Extensional(Dense(r), w);
  }

  lemma {:induction false} CatRows(ls: seq<Lora>)
    requires ls != [] && (forall k :: 0 <= k < |ls| ==> Matrix(ls[k]) && ls[k].A == ls[0].A)
    requires AllJoinable(FactorsB(ls), 0)
    ensures var b := JoinAll(FactorsB(ls), 0);
      FactorsAgree(ls[0].A, b) && var r: Lora := RawLora(ls[0].A, b);
      && Matrix(r) && AllJoinable(Denses(ls), 0) && Dense(r) == JoinAll(Denses(ls), 0)
    decreases |ls|
  {
    hide Prod, Join, Dense;
    if |ls| > 1 {
      CatTail(ls);
      JoinableTail(FactorsB(ls));
      CatRows(ls[1..]);
      var rest: Lora := RawLora(ls[0].A, JoinAll(FactorsB(ls[1..]), 0));
      GlueRowsMeaning(ls[0], rest);
      JoinDenses(ls, rest);
    }
  }

  // ---------- beyond matrices: shared and own first axes ----------

  function FirstAxes(ts: seq<Tensor>): (r: seq<nat>)
    requires forall k :: 0 <= k < |ts| ==> |ts[k].shape| > 0
    ensures |r| == |ts|
  {
    seq(|ts|, k requires 0 <= k < |ts| => ts[k].shape[0])
  }

  lemma {:induction false} JoinAllShape(ts: seq<Tensor>)
    requires AllJoinable(ts, 0)
    ensures (forall k :: 0 <= k < |ts| ==> |ts[k].shape| > 0)
    ensures JoinAll(ts, 0).shape == ts[0].shape[0 := Sum(FirstAxes(ts))]
    decreases |ts|
  {
    hide Join;
    forall k | 0 <= k < |ts| ensures |ts[k].shape| > 0 { assert Joinable(ts[0], ts[k], 0); }
    assert FirstAxes(ts)[0] == ts[0].shape[0];
    if |ts| > 1 {
      JoinableTail(ts);
      JoinAllShape(ts[1..]);
      assert FirstAxes(ts)[1..] == FirstAxes(ts[1..]);
    } else {
      assert FirstAxes(ts)[1..] == [];
    }
  }

  lemma {:induction false} SumZero(s: seq<nat>)
    ensures Sum(s) == 0 <==> forall k :: 0 <= k < |s| ==> s[k] == 0
  {
    if s != [] {
      SumZero(s[1..]);
      assert forall k :: 1 <= k < |s| ==> s[k] == s[1..][k - 1];
    }
  }

  predicate OnlyAt(s: seq<nat>, j: nat) { j < |s| && s[j] == 1 && forall k :: 0 <= k < |s| && k != j ==> s[k] == 0 }

  lemma {:induction false} SumOne(s: seq<nat>) returns (j: nat)
    requires Sum(s) == 1
    ensures OnlyAt(s, j)
  {
    if s[0] == 1 {
      SumZero(s[1..]);
      assert forall k :: 1 <= k < |s| ==> s[k] == s[1..][k - 1];
      j := 0;
    } else {
      var i := SumOne(s[1..]);
      assert forall k :: 1 <= k < |s| ==> s[k] == s[1..][k - 1];
      j := i + 1;
    }
  }

  lemma {:induction false} SumsEqual(s: seq<nat>, t: seq<nat>)
    requires |s| == |t| && (forall k :: 0 <= k < |s| ==> s[k] <= t[k])
    ensures Sum(s) <= Sum(t) && (Sum(s) == Sum(t) ==> s == t)
  {
    if s != [] {
      SumsEqual(s[1..], t[1..]);
      if Sum(s) == Sum(t) {
        assert s == [s[0]] + s[1..] && t == [t[0]] + t[1..];
      }
    }
  }

  lemma JoinEmpty(a: Tensor, b: Tensor)
    requires Joinable(a, b, 0)
    ensures b.shape[0] == 0 ==> Join(a, b, 0) == a
    ensures a.shape[0] == 0 ==> Join(a, b, 0) == b
  {
    hide Join, Flat, Prod, At;
    var j := Join(a, b, 0);
    if b.shape[0] == 0 {
      assert j.shape == a.shape;
      forall i | InBounds(i, j.shape) ensures At(j, i) == At(a, i) {
        JoinAt(a, b, 0, i);
        assert InFirst(i, 0, a.shape[0]);
      }
      Extensional(j, a);
    }
    if a.shape[0] == 0 {
      assert j.shape == b.shape;
      forall i | InBounds(i, j.shape) ensures At(j, i) == At(b, i) {
        JoinAt(a, b, 0, i);
        assert Shifted(i, 0, 0) == i;
      }
      Extensional(j, b);
    }
  }

  /** Joining with nothing but empty tensors changes nothing. */
  lemma {:induction false} JoinOnly(ts: seq<Tensor>, j: nat)
    requires AllJoinable(ts, 0) && j < |ts|
    requires forall k :: 0 <= k < |ts| && k != j ==> |ts[k].shape| > 0 && ts[k].shape[0] == 0
    ensures JoinAll(ts, 0) == ts[j]
    decreases |ts|
  {
    hide Join;
    if |ts| > 1 {
      JoinableTail(ts);
      if j == 0 {
        JoinAllShape(ts[1..]);
        assert forall k :: 0 <= k < |ts| - 1 ==> ts[1..][k] == ts[k + 1];
        SumZero(FirstAxes(ts[1..]));
      } else {
        assert forall k :: 0 <= k < |ts| - 1 ==> ts[1..][k] == ts[k + 1];
        JoinOnly(ts[1..], j - 1);
      }
      JoinEmpty(ts[0], JoinAll(ts[1..], 0));
    }
  }

  /** The lengths of the first axes of a concatenation: what A has and what B has. */
  function SumA(ls: seq<Lora>): nat {
    Sum(FirstAxes(FactorsA(ls)))
  }

  function SumB(ls: seq<Lora>): nat {
    Sum(FirstAxes(FactorsB(ls)))
  }

  /** A piece without positions whose A nevertheless has one. */
  predicate EmptyShare(l: Lora) { l.A.shape[0] == 1 && l.B.shape[0] == 0 }

  lemma CatShapes(ls: seq<Lora>)
    requires ls != [] && Dims(ls[0]) > 2
    requires AllJoinable(FactorsA(ls), 0) && AllJoinable(FactorsB(ls), 0)
    ensures var a, b := JoinAll(FactorsA(ls), 0), JoinAll(FactorsB(ls), 0);
      && FactorsAgree(a, b) && Cat(ls) == Success(RawLora(a, b))
      && a.shape == ls[0].A.shape[0 := SumA(ls)] && b.shape == ls[0].B.shape[0 := SumB(ls)]
  {
    hide JoinAll, Sum, FirstAxes;
    JoinAllShape(FactorsA(ls));
    JoinAllShape(FactorsB(ls));
  }

  /** Beyond matrices the concatenated factors stand for a tensor exactly when the first axes of A add up
      to one or to those of B. */
  lemma CatBroadcasts(ls: seq<Lora>)
    requires Cat(ls).Success? && Dims(ls[0]) > 2 && Broadcasts(ls[0])
    ensures Broadcasts(Cat(ls).value) <==> SumA(ls) == 1 || SumA(ls) == SumB(ls)
  {
    hide JoinAll, SumA, SumB, AllJoinable;
    CatShapes(ls);
  }

  lemma OneOf(ls: seq<Lora>, j: nat)
    requires (forall k :: 0 <= k < |ls| ==> Dims(ls[k]) > 2 && Broadcasts(ls[k])) && OnlyAt(FirstAxes(FactorsA(ls)), j)
    requires AllJoinable(FactorsA(ls), 0) && AllJoinable(FactorsB(ls), 0)
    ensures JoinAll(FactorsA(ls), 0) == ls[j].A && JoinAll(FactorsB(ls), 0) == ls[j].B
    ensures AllJoinable(Denses(ls), 0) && JoinAll(Denses(ls), 0) == Dense(ls[j])
  {
    hide JoinAll, Dense, Sum;
    var fa := FirstAxes(FactorsA(ls));
    forall k | 0 <= k < |ls| && k != j ensures ls[k].A.shape[0] == 0 && ls[k].B.shape[0] == 0 {
      assert fa[k] == 0;
    }
    JoinOnly(FactorsA(ls), j);
    JoinOnly(FactorsB(ls), j);
    DensesJoinable(ls);
    JoinOnly(Denses(ls), j);
  }

  lemma DensesJoinable(ls: seq<Lora>)
    requires (forall k :: 0 <= k < |ls| ==> Dims(ls[k]) > 2 && Broadcasts(ls[k]))
    requires AllJoinable(FactorsA(ls), 0) && AllJoinable(FactorsB(ls), 0)
    ensures AllJoinable(Denses(ls), 0)
  {
    hide JoinAll, Dense;
    var ws := Denses(ls);
    forall k | 0 <= k < |ws| ensures Joinable(ws[0], ws[k], 0) {
      assert Joinable(FactorsA(ls)[0], FactorsA(ls)[k], 0) && Joinable(FactorsB(ls)[0], FactorsB(ls)[k], 0);
    }
  }

  lemma AllOwn(ls: seq<Lora>)
    requires (forall k :: 0 <= k < |ls| ==> Dims(ls[k]) > 2 && Broadcasts(ls[k])) && NoEmptyShare(ls)
    requires SumA(ls) == SumB(ls)
    ensures forall k :: 0 <= k < |ls| ==> OwnFirstAxis(ls[k])
  {
    hide Sum;
    var fa, fb := FirstAxes(FactorsA(ls)), FirstAxes(FactorsB(ls));
    SumsEqual(fa, fb);
    forall k | 0 <= k < |ls| ensures OwnFirstAxis(ls[k]) {
      assert fa[k] == fb[k];
    }
  }

  lemma CatDims(ls: seq<Lora>, k: nat)
    requires Cat(ls).Success? && k < |ls|
    ensures Dims(ls[k]) == Dims(ls[0])
  {
    hide JoinAll;
    if Dims(ls[0]) > 2 { SameRank(FactorsA(ls), k); }
  }

  predicate NoEmptyShare(ls: seq<Lora>) {
    forall k :: 0 <= k < |ls| ==> !EmptyShare(ls[k])
  }

  /** When concatenated factors stand for a tensor, and that this is the concatenation of the products:
      always for matrices, beyond them unless several positions meet an empty share of A. */
  lemma CatMeaning(ls: seq<Lora>)
    requires Cat(ls).Success? && forall k :: 0 <= k < |ls| ==> Broadcasts(ls[k])
    ensures var r := Cat(ls).value;
      && (Broadcasts(r) <==> Dims(ls[0]) == 2 || SumA(ls) == 1 || SumA(ls) == SumB(ls))
      && (Broadcasts(r) && (Dims(ls[0]) == 2 || SumA(ls) == 1 || NoEmptyShare(ls))
          ==> TorchCat(Denses(ls), 0) == Success(Dense(r)))
  {
    hide Dense, JoinAll, SumA, SumB, Broadcasts, AllJoinable, NoEmptyShare;
    forall k | 0 <= k < |ls| ensures Dims(ls[k]) == Dims(ls[0]) { CatDims(ls, k); }
    if Dims(ls[0]) > 2 {
      CatBroadcasts(ls);
      if Broadcasts(Cat(ls).value) && (SumA(ls) == 1 || NoEmptyShare(ls)) { CatBeyondMatrices(ls); }
    } else {
      CatRows(ls);
      MatrixBroadcasts(Cat(ls).value);
    }
  }

  lemma MatrixBroadcasts(l: Lora)
    requires Matrix(l)
    ensures Broadcasts(l)
  {}

  lemma CatBeyondMatrices(ls: seq<Lora>)
    requires Cat(ls).Success? && (forall k :: 0 <= k < |ls| ==> Dims(ls[k]) > 2 && Broadcasts(ls[k]))
    requires Broadcasts(Cat(ls).value) && (SumA(ls) == 1 || NoEmptyShare(ls))
    ensures TorchCat(Denses(ls), 0) == Success(Dense(Cat(ls).value))
  {
    hide Dense, JoinAll, SumB, Broadcasts, AllJoinable, Sum;
    CatBroadcasts(ls);
    if SumA(ls) == 1 {
      var j := SumOne(FirstAxes(FactorsA(ls)));
      OneOf(ls, j);
    } else {
      AllOwn(ls);
      var r := CatGlues(ls);
    }
  }

  lemma SameRank(ts: seq<Tensor>, k: nat)
    requires AllJoinable(ts, 0) && k < |ts|
    ensures |ts[k].shape| == |ts[0].shape|
  {
    assert Joinable(ts[0], ts[k], 0);
  }

  // ---------- split, then concatenate ----------

  lemma {:induction false} PiecesShare(l: Lora, d: nat, s: seq<nat>, lo: nat, k: nat)
    requires d < Dims(l) - 1 && lo + Sum(s) <= l.B.shape[d] && k < |s|
    ensures Pieces(l, false, true, d, s, s, lo, lo)[k].A == l.A
    ensures FactorsB(Pieces(l, false, true, d, s, s, lo, lo)) == SplitT(l.B, d, s, lo)
    decreases |s|
  {
    hide Narrow, Prod;
    var ps := Pieces(l, false, true, d, s, s, lo, lo);
    if |s| > 1 {
      PiecesShare(l, d, s[1..], lo + s[0], if k == 0 then 0 else k - 1);
      assert FactorsB(ps)[1..] == FactorsB(ps[1..]);
    } else {
      assert s[1..] == [];
    }
    assert FactorsB(ps)[0] == Narrow(l.B, d, lo, s[0]);
    assert FactorsB(ps) == [FactorsB(ps)[0]] + FactorsB(ps)[1..];
  }

  lemma {:induction false} PiecesCutBoth(l: Lora, d: nat, s: seq<nat>, lo: nat)
    requires d < Dims(l) - 2 && lo + Sum(s) <= l.B.shape[d] && lo + Sum(s) <= l.A.shape[d]
    ensures FactorsA(Pieces(l, true, true, d, s, s, lo, lo)) == SplitT(l.A, d, s, lo)
    ensures FactorsB(Pieces(l, true, true, d, s, s, lo, lo)) == SplitT(l.B, d, s, lo)
    decreases |s|
  {
    hide Narrow, Prod, FactorsAgree, ShapeOf;
    var ps := Pieces(l, true, true, d, s, s, lo, lo);
    if s != [] {
      PiecesCutBoth(l, d, s[1..], lo + s[0]);
      assert FactorsA(ps)[1..] == FactorsA(ps[1..]) && FactorsB(ps)[1..] == FactorsB(ps[1..]);
      assert FactorsA(ps) == [FactorsA(ps)[0]] + FactorsA(ps)[1..];
      assert FactorsB(ps) == [FactorsB(ps)[0]] + FactorsB(ps)[1..];
    }
  }

  /** Concatenating n copies of a tensor whose first axis has length 1 makes that axis n long and
      repeats the entries along it. */
  lemma {:induction false} JoinCopies(t: Tensor, n: nat)
    requires n >= 1 && |t.shape| >= 1 && t.shape[0] == 1
    ensures var ts := seq(n, _ => t); AllJoinable(ts, 0) && JoinAll(ts, 0).shape == t.shape[0 := n]
  {
    hide Join;
    var ts: seq<Tensor> := seq(n, _ => t);
    if n > 1 {
      JoinCopies(t, n - 1);
      MoreCopies(t, n);
    } else {
      assert ts == [t];
      OneJoins(t, 0);
      assert t.shape[0 := 1] == t.shape;
    }
  }

  lemma MoreCopies(t: Tensor, n: nat)
    requires n >= 2 && |t.shape| >= 1 && AllJoinable(seq(n - 1, _ => t), 0)
    ensures var ts, rest := seq(n, _ => t), seq(n - 1, _ => t);
      AllJoinable(ts, 0) && Joinable(t, JoinAll(rest, 0), 0) && JoinAll(ts, 0) == Join(t, JoinAll(rest, 0), 0)
  {
    hide Join, JoinAll;
    var rest: seq<Tensor> := seq(n - 1, _ => t);
    assert seq(n, _ => t) == [t] + rest;
    assert rest[0] == t;
    ConsJoins(t, rest, 0);
  }

  lemma {:induction false} CopiesAt(t: Tensor, n: nat, i: Index)
    requires n >= 1 && |t.shape| >= 1 && t.shape[0] == 1 && InBounds(i, t.shape[0 := n])
    ensures var ts := seq(n, _ => t); AllJoinable(ts, 0) && JoinAll(ts, 0).shape == t.shape[0 := n]
    ensures InBounds(i[0 := 0], t.shape) && At(JoinAll(seq(n, _ => t), 0), i) == At(t, i[0 := 0])
    decreases n
  {
    hide Join, JoinAll, At, AllJoinable;
    JoinCopies(t, n);
    assert i[0] < n && forall k :: 1 <= k < |i| ==> i[k] < t.shape[k];
    assert InBounds(i[0 := 0], t.shape);
    if n == 1 {
      OneCopy(t);
      assert i[0 := 0] == i;
    } else {
      JoinCopies(t, n - 1);
      MoreCopies(t, n);
      JoinAt(t, JoinAll(seq(n - 1, _ => t), 0), 0, i);
      if i[0] == 0 {
        assert i[0 := 0] == i;
      } else {
        CopiesAt(t, n - 1, Shifted(i, 0, 1));
        assert Shifted(i, 0, 1)[0 := 0] == i[0 := 0];
      }
    }
  }

  lemma OneCopy(t: Tensor)
    requires |t.shape| >= 1
    ensures var ts := seq(1, _ => t); AllJoinable(ts, 0) && JoinAll(ts, 0) == t
  {
    assert seq(1, _ => t) == [t];
    OneJoins(t, 0);
  }

  /** The factors with A repeated once for every position of the first axis. */
  predicate Repeats(l: Lora, r: Lora) {
    && Dims(r) == Dims(l) > 2 && r.B == l.B && l.A.shape[0] == 1
    && l.B.shape[0] >= 1 && AllJoinable(seq(l.B.shape[0], _ => l.A), 0)
    && r.A == JoinAll(seq(l.B.shape[0], _ => l.A), 0)
  }

  lemma RepeatedShape(l: Lora, r: Lora)
    requires Broadcasts(l) && Repeats(l, r)
    ensures r.A.shape == l.A.shape[0 := l.B.shape[0]] && Broadcasts(r) && ShapeOf(r) == ShapeOf(l) && Rank(r) == Rank(l)
  {
    hide JoinAll;
    JoinCopies(l.A, l.B.shape[0]);
  }

  lemma RepeatedIndex(l: Lora, r: Lora, i: Index, k: nat)
    requires Broadcasts(l) && Broadcasts(r) && Dims(r) == Dims(l) > 2 && l.A.shape[0] == 1
    requires r.A.shape == l.A.shape[0 := l.B.shape[0]] && InBounds(i, ShapeOf(l)) && k < Rank(l)
    ensures IndexA(i, LeadA(r), k)[0 := 0] == IndexA(i, LeadA(l), k)
  {
    var ia, il := IndexA(i, LeadA(r), k), IndexA(i, LeadA(l), k);
    forall x | 0 <= x < |i| ensures ia[0 := 0][x] == il[x] {
      if 1 <= x < |i| - 2 { assert LeadA(r)[x] == LeadA(l)[x]; }
    }
  }

  /** Repeating the shared A changes nothing in the product. */
  lemma RepeatMeaning(l: Lora, r: Lora)
    requires Broadcasts(l) && Repeats(l, r)
    ensures Broadcasts(r) && Dense(r) == Dense(l)
  {
    hide Dense, JoinAll, At, Flat, Repeats, Broadcasts, ShapeOf;
    RepeatedShape(l, r);
    forall i | InBounds(i, ShapeOf(l)) ensures At(Dense(r), i) == At(Dense(l), i) {
      DenseAt(r, i);
      DenseAt(l, i);
      forall k: nat | k < Rank(l) ensures Term(r, i, k) == Term(l, i, k) { RepeatedTerm(l, r, i, k); }
      ContractEqual(r, i, l, i, Rank(l));
    }
    Extensional(Dense(r), Dense(l));
  }

  lemma RepeatedTerm(l: Lora, r: Lora, i: Index, k: nat)
    requires Broadcasts(l) && Repeats(l, r) && InBounds(i, ShapeOf(l)) && k < Rank(l)
    ensures Broadcasts(r) && ShapeOf(r) == ShapeOf(l) && Rank(r) == Rank(l) && Term(r, i, k) == Term(l, i, k)
  {
    hide JoinAll, At, Broadcasts, ShapeOf;
    RepeatedShape(l, r);
    FactorIndices(l, i, k);
    FactorIndices(r, i, k);
    RepeatedIndex(l, r, i, k);
    CopiesAt(l.A, l.B.shape[0], IndexA(i, LeadA(r), k));
  }

  /** Splitting along the first axis and concatenating gives the original factors back exactly when
      the tensor is a matrix, A has its own first axis, or there is a single chunk. In the remaining
      case A was shared by the chunks and is repeated: the result stands for a tensor at all exactly when
      there are as many chunks as positions, and that tensor is then the one that was split. */
  lemma SplitThenCat(l: Lora, spec: SplitSize)
    requires Broadcasts(l) && Split(l, spec, 0).Success? && Split(l, spec, 0).value != []
    ensures var cs := Split(l, spec, 0).value;
      && Cat(cs).Success?
      && (Cat(cs) == Success(l) <==> Dims(l) == 2 || l.A.shape[0] != 1 || |cs| == 1)
      && (Broadcasts(Cat(cs).value) <==> Cat(cs) == Success(l) || |cs| == l.B.shape[0])
      && (Broadcasts(Cat(cs).value) ==> Dense(Cat(cs).value) == Dense(l))
  {
    hide Prod, Narrow, Join, SplitT, Pieces, JoinAll, Dense;
    var s := ChunkSizes(spec, l.B.shape[0]).value;
    var cs := Split(l, spec, 0).value;
    SplitRebuilds(l.B, 0, s);
    if Dims(l) == 2 || l.A.shape[0] == 1 {
      assert cs == Pieces(l, false, true, 0, s, s, 0, 0);
      forall k | 0 <= k < |s| ensures cs[k].A == l.A && FactorsB(cs) == SplitT(l.B, 0, s, 0) {
        PiecesShare(l, 0, s, 0, k);
      }
      assert FactorsB(cs) == SplitT(l.B, 0, s, 0) by { PiecesShare(l, 0, s, 0, 0); }
      assert cs[0].A == l.A;
      if Dims(l) > 2 {
        assert FactorsA(cs) == seq(|cs|, _ => l.A);
        CatOfShared(l, cs);
      }
    } else {
      SplitRebuilds(l.A, 0, s);
      PiecesCutBoth(l, 0, s, 0);
    }
  }

  lemma CatOfShared(l: Lora, cs: seq<Lora>)
    requires Broadcasts(l) && Dims(l) > 2 && l.A.shape[0] == 1 && cs != []
    requires FactorsA(cs) == seq(|cs|, _ => l.A) && TorchCat(FactorsB(cs), 0) == Success(l.B)
    ensures Cat(cs).Success?
    ensures Cat(cs) == Success(l) <==> |cs| == 1
    ensures |cs| > 1 ==> (Broadcasts(Cat(cs).value) <==> |cs| == l.B.shape[0])
    ensures Broadcasts(Cat(cs).value) ==> Dense(Cat(cs).value) == Dense(l)
  {
    hide JoinAll, Dense, AllJoinable;
    JoinCopies(l.A, |cs|);
    var a := JoinAll(FactorsA(cs), 0);
    assert cs[0].A == FactorsA(cs)[0] == l.A;
    var r: Lora := RawLora(a, l.B);
    assert Cat(cs) == Success(r);
    assert forall k :: 1 <= k < Dims(l) - 2 ==> r.A.shape[k] == l.A.shape[k];
    assert r.A.shape[0] == |cs|;
    if |cs| == 1 {
      OneCopy(l.A);
      assert FactorsA(cs) == [l.A];
    } else if |cs| == l.B.shape[0] {
      assert Repeats(l, r);
      RepeatMeaning(l, r);
    }
  }
}
