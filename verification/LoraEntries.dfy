/** What the operations on factored tensors do to the single entries of the product, said without the torch
    operations they are compared with elsewhere. */
module LoraEntries {
  import opened Wrappers
  import opened Tensors
  import opened TensorOps
  import opened LoraTensor
  import opened LoraIndexing
  import opened LoraSubscript
  import opened LoraPermute
  import opened LoraSplit
  import opened LoraStack
  import LoraScale

  // ---------- Python's slices ----------

  /** A bound of a slice on an axis of length n: counted from the end when negative, then cut to the axis. */
  function Bound(b: Option<int>, n: nat, default: nat): (r: nat)
    requires default <= n
    ensures r <= n
  {
    if b.None? then default
    else if b.value < 0 then (if b.value + n < 0 then 0 else b.value + n)
    else if b.value > n then n
    else b.value
  }

  function Lower(p: PyIndex, n: nat): nat
    requires p.Slice?
  {
    Bound(p.start, n, 0)
  }

  function Upper(p: PyIndex, n: nat): nat
    requires p.Slice?
  {
    Bound(p.stop, n, n)
  }

  function Stride(p: PyIndex): int
    requires p.Slice?
  {
    if p.step.Some? then p.step.value else 1
  }

  /** The slice keeps position x. */
  predicate Keeps(p: PyIndex, n: nat, x: int)
    requires p.Slice? && Stride(p) > 0
  {
    Lower(p, n) <= x < Upper(p, n) && (x - Lower(p, n)) % Stride(p) == 0
  }

  /** The position that entry i of the slice comes from. */
  function Position(p: PyIndex, n: nat, i: nat): (x: nat)
    requires p.Slice? && Stride(p) > 0
    ensures x == Lower(p, n) + Stride(p) * i
  {
    MulMonotone(0, i, Stride(p));
    assert i * Stride(p) == Stride(p) * i;
    Lower(p, n) + Stride(p) * i
  }

  /** How many of the first m positions the slice keeps. */
  function Count(p: PyIndex, n: nat, m: nat): nat
    requires p.Slice? && Stride(p) > 0
  {
    if m == 0 then 0 else Count(p, n, m - 1) + if Keeps(p, n, m - 1) then 1 else 0
  }

  /** How many positions lo, lo + st, ... lie below m. */
  function Below(lo: nat, st: int, m: int): nat
    requires st > 0
  {
    if m <= lo then 0 else (m - lo + st - 1) / st
  }

  lemma BelowStep(lo: nat, st: int, m: nat)
    requires st > 0 && m >= lo
    ensures Below(lo, st, m + 1) == Below(lo, st, m) + if (m - lo) % st == 0 then 1 else 0
  {
    var d := m - lo;
    var q, r := d / st, d % st;
    assert d == q * st + r;
    if r == 0 {
      DivModUnique(q, st - 1, st);
      assert d + st - 1 == q * st + (st - 1);
      DivModUnique(q + 1, 0, st);
      assert d + st == (q + 1) * st + 0 by { MulMonotone(q, q, st); }
    } else {
      MulMonotone(q, q, st);
      assert d + st - 1 == (q + 1) * st + (r - 1) && d + st == (q + 1) * st + r;
      DivModUnique(q + 1, r - 1, st);
      DivModUnique(q + 1, r, st);
    }
  }

  lemma {:induction false} CountIs(p: PyIndex, n: nat, m: nat)
    requires p.Slice? && Stride(p) > 0 && m <= n
    ensures Count(p, n, m) == Below(Lower(p, n), Stride(p), if m < Upper(p, n) then m else Upper(p, n))
  {
    if m > 0 {
      CountIs(p, n, m - 1);
      if Lower(p, n) <= m - 1 < Upper(p, n) { BelowStep(Lower(p, n), Stride(p), m - 1); }
    }
  }

  /** What a slice means: it is refused unless its step is positive; otherwise entry i of the result is position
      lo + step * i, there are as many entries as kept positions, and the kept positions are those of the entries. */
  lemma SliceMeaning(p: PyIndex, n: nat)
    requires p.Slice?
    ensures Resolve(p, n).Some? <==> Stride(p) > 0
    ensures Stride(p) > 0 ==> var r := Resolve(p, n).value;
      && r.Range? && r.len == Count(p, n, n)
      && (forall i: nat :: PosAt(r, i) == Position(p, n, i))
      && (forall x: nat :: Keeps(p, n, x) <==> exists i: nat :: i < r.len && PosAt(r, i) == x)
  {
    if Stride(p) > 0 {
      var r, lo, hi, st := Resolve(p, n).value, Lower(p, n), Upper(p, n), Stride(p);
      CountIs(p, n, n);
      assert r == Range(lo, Below(lo, st, hi), st);
      assert forall i: nat :: PosAt(r, i) == Position(p, n, i);
      forall x: nat ensures Keeps(p, n, x) <==> exists i: nat :: i < r.len && PosAt(r, i) == x {
        KeepsIs(p, n, x);
        hide *;
        KeptExactly(lo, st, hi, r, x);
      }
    }
  }

  lemma KeepsIs(p: PyIndex, n: nat, x: nat)
    requires p.Slice? && Stride(p) > 0
    ensures Keeps(p, n, x) <==> Lower(p, n) <= x < Upper(p, n) && (x - Lower(p, n)) % Stride(p) == 0
  {}

  lemma KeptExactly(lo: nat, st: int, hi: nat, r: Pick, x: nat)
    requires st > 0 && r == Range(lo, Below(lo, st, hi), st)
    ensures lo <= x < hi && (x - lo) % st == 0 <==> exists i: nat :: i < r.len && PosAt(r, i) == x
  {
    hide Below;
    if lo <= x < hi && (x - lo) % st == 0 {
      KeptIndex(lo, st, hi, x);
      assert PosAt(r, (x - lo) / st) == x;
    }
    if i: nat :| i < r.len && PosAt(r, i) == x { KeptPosition(lo, st, hi, i); }
  }

  lemma KeptPosition(lo: nat, st: int, hi: nat, i: nat)
    requires st > 0 && i < Below(lo, st, hi)
    ensures lo <= lo + st * i < hi && (lo + st * i - lo) % st == 0
  {
    var b := Below(lo, st, hi);
    assert hi - lo + st - 1 == b * st + (hi - lo + st - 1) % st;
    MulMonotone(i + 1, b, st);
    MulMonotone(i, i, st);
    MulMonotone(0, i, st);
    DivModUnique(i, 0, st);
    assert st * i == i * st;
  }

  lemma KeptIndex(lo: nat, st: int, hi: nat, x: nat)
    requires st > 0 && lo <= x < hi && (x - lo) % st == 0
    ensures var i := (x - lo) / st; 0 <= i < Below(lo, st, hi) && lo + st * i == x
  {
    var i, b := (x - lo) / st, Below(lo, st, hi);
    assert x - lo == i * st;
    assert hi - lo + st - 1 == b * st + (hi - lo + st - 1) % st;
    if b <= i { MulMonotone(b, i, st); }
  }

  // ---------- subscripts ----------

  /** Every subscript is an int inside its axis or a slice with a positive step. */
  predicate Legal(ix: seq<PyIndex>, s: Shape) {
    |ix| == |s| && forall k :: 0 <= k < |ix| ==> if ix[k].Int? then 0 <= ix[k].j + s[k] && ix[k].j < s[k] else Stride(ix[k]) > 0
  }

  /** The position an int names, counted from the end when negative. */
  function Named(j: int, n: nat): nat
    requires 0 <= j + n && j < n
  {
    if j < 0 then j + n else j
  }

  /** The shape left by the subscripts: for each slice the number of positions it keeps. */
  function Remaining(ix: seq<PyIndex>, s: Shape): Shape
    requires Legal(ix, s)
  {
    if ix == [] then []
    else
      LegalTail(ix, s);
      (if ix[0].Int? then [] else [Count(ix[0], s[0], s[0])]) + Remaining(ix[1..], s[1..])
  }

  /** Where the entry at i of what is left comes from. */
  function From(ix: seq<PyIndex>, s: Shape, i: Index): Index
    requires Legal(ix, s) && |i| == |Remaining(ix, s)|
  {
    if ix == [] then []
    else
      LegalTail(ix, s);
      if ix[0].Int? then [Named(ix[0].j, s[0])] + From(ix[1..], s[1..], i)
      else [Position(ix[0], s[0], i[0])] + From(ix[1..], s[1..], i[1..])
  }

  lemma LegalTail(ix: seq<PyIndex>, s: Shape)
    requires Legal(ix, s) && ix != []
    ensures Legal(ix[1..], s[1..])
  {
    assert forall k :: 0 <= k < |ix| - 1 ==> ix[1..][k] == ix[k + 1] && s[1..][k] == s[k + 1];
  }

  lemma LegalResolves(p: PyIndex, n: nat)
    ensures Resolve(p, n).Some? <==> if p.Int? then 0 <= p.j + n && p.j < n else Stride(p) > 0
  {
    if p.Slice? { SliceMeaning(p, n); }
  }

  lemma AllLegal(ix: seq<PyIndex>, s: Shape, ps: seq<Pick>)
    requires |ix| == |s| == |ps| && forall k :: 0 <= k < |s| ==> Some(ps[k]) == Resolve(ix[k], s[k])
    ensures Legal(ix, s)
  {
    hide Resolve, Stride;
    forall k | 0 <= k < |s| ensures if ix[k].Int? then 0 <= ix[k].j + s[k] && ix[k].j < s[k] else Stride(ix[k]) > 0 {
      LegalResolves(ix[k], s[k]);
    }
  }

  lemma SliceFirst(ix: seq<PyIndex>, s: Shape, i: Index)
    requires Legal(ix, s) && ix != [] && ix[0].Slice? && Legal(ix[1..], s[1..])
    ensures Remaining(ix, s) == [Count(ix[0], s[0], s[0])] + Remaining(ix[1..], s[1..])
    ensures |i| == |Remaining(ix, s)| ==> From(ix, s, i) == [Position(ix[0], s[0], i[0])] + From(ix[1..], s[1..], i[1..])
  {
    hide Count, Lower, Stride, Position;
  }

  lemma IntFirst(ix: seq<PyIndex>, s: Shape, i: Index)
    requires Legal(ix, s) && ix != [] && ix[0].Int? && Legal(ix[1..], s[1..])
    ensures Remaining(ix, s) == Remaining(ix[1..], s[1..])
    ensures |i| == |Remaining(ix, s)| ==>
      From(ix, s, i) == [Named(ix[0].j, s[0])] + From(ix[1..], s[1..], i)
  {}

  lemma {:induction false} SourceIs(ix: seq<PyIndex>, s: Shape, ps: seq<Pick>, i: Index)
    requires |ix| == |s| == |ps| && forall k :: 0 <= k < |s| ==> Some(ps[k]) == Resolve(ix[k], s[k])
    ensures Legal(ix, s) && PickedShape(ps) == Remaining(ix, s)
    ensures |i| == |Remaining(ix, s)| ==> Source(ps, i) == From(ix, s, i)
  {
    hide Resolve, Count, Position, Stride, Legal, From, Remaining, PosAt;
    AllLegal(ix, s, ps);
    if ix == [] {
      EmptyIndex(i);
    } else {
      assert forall k :: 0 <= k < |s| - 1 ==> ix[1..][k] == ix[k + 1] && s[1..][k] == s[k + 1] && ps[1..][k] == ps[k + 1];
      FirstSource(ix[0], s[0], ps[0]);
      SourceIs(ix[1..], s[1..], ps[1..], if ix[0].Int? || i == [] then i else i[1..]);
      if ix[0].Int? { IntFirst(ix, s, i); } else { SliceFirst(ix, s, i); }
    }
  }

  lemma EmptyIndex(i: Index)
    ensures Legal([], []) ==> Remaining([], []) == [] && (i == [] ==> From([], [], i) == [])
  {}

  lemma FirstSource(p: PyIndex, n: nat, q: Pick)
    requires Some(q) == Resolve(p, n)
    ensures p.Int? ==> 0 <= p.j + n && p.j < n && q == One(Named(p.j, n))
    ensures p.Slice? ==> Stride(p) > 0 && q.Range? && q.len == Count(p, n, n) && forall i: nat :: PosAt(q, i) == Position(p, n, i)
  {
    if p.Slice? { SliceMeaning(p, n); }
  }

  /** Subscripting the product, entry by entry. */
  lemma IndexEntries(w: Tensor, ix: seq<PyIndex>, i: Index)
    requires |ix| == |w.shape| && TorchIndex(w, ix).Success?
    ensures Legal(ix, w.shape) && TorchIndex(w, ix).value.shape == Remaining(ix, w.shape)
    ensures InBounds(i, Remaining(ix, w.shape)) ==>
      InBounds(From(ix, w.shape, i), w.shape) && At(TorchIndex(w, ix).value, i) == At(w, From(ix, w.shape, i))
  {
    hide PickT, Resolve, Source, PickedShape, At;
    var ps := ResolveAll(ix, w.shape).value;
    assert forall k :: 0 <= k < |ix| ==> Some(ps[k]) == Resolve(ix[k], w.shape[k]);
    SourceIs(ix, w.shape, ps, i);
    if InBounds(i, Remaining(ix, w.shape)) { PickAt(w, ps, i); }
  }

  lemma PaddedIndex(w: Tensor, idx: seq<PyIndex>)
    requires |idx| <= |w.shape|
    ensures TorchIndex(w, idx) == TorchIndex(w, Padded(idx, |w.shape|))
  {
    hide PickT, ResolveAll;
  }

  /** A sound tuple subscript of the factors: what its product holds is the product's entry at the position that
      Python's rule names, and the shape counts the kept positions. */
  lemma GetTupleEntries(l: Lora, idx: seq<PyIndex>, i: Index)
    requires Broadcasts(l) && GetTuple(l, idx).Success? && TupleSound(l, Padded(idx, Dims(l)))
    ensures var r, ix := GetTuple(l, idx).value, Padded(idx, Dims(l));
      && Broadcasts(r) && Legal(ix, ShapeOf(l)) && ShapeOf(r) == Remaining(ix, ShapeOf(l))
      && (InBounds(i, ShapeOf(r)) ==>
            InBounds(From(ix, ShapeOf(l), i), ShapeOf(l)) && At(Dense(r), i) == At(Dense(l), From(ix, ShapeOf(l), i)))
  {
    hide TorchIndex, Dense, At, From, Remaining, Legal, TupleSound;
    GetTupleMeaning(l, idx);
    PaddedIndex(Dense(l), idx);
    IndexEntries(Dense(l), Padded(idx, Dims(l)), i);
  }

  /** The same for one int on the first axis. */
  lemma GetIntEntries(l: Lora, j: int, i: Index)
    requires Broadcasts(l) && GetInt(l, j).Success?
    ensures var r, n := GetInt(l, j).value, ShapeOf(l)[0];
      && 0 <= j + n && j < n && Broadcasts(r) && ShapeOf(r) == ShapeOf(l)[1..]
      && (InBounds(i, ShapeOf(r)) ==> var x := [Named(j, n)] + i;
            InBounds(x, ShapeOf(l)) && At(Dense(r), i) == At(Dense(l), x))
  {
    hide TorchIndex, Dense, At;
    GetIntMeaning(l, j);
    TakenEntries(Dense(l), j, i);
  }

  /** An int on the first axis of a tensor, entry by entry. */
  lemma TakenEntries(w: Tensor, j: int, i: Index)
    requires w.shape != [] && TorchIndex(w, [Int(j)]).Success?
    ensures var r, n := TorchIndex(w, [Int(j)]).value, w.shape[0];
      && 0 <= j + n && j < n && r.shape == w.shape[1..]
      && (InBounds(i, r.shape) ==> var x := [Named(j, n)] + i; InBounds(x, w.shape) && At(r, i) == At(w, x))
  {
    hide TorchIndex, At, From, Remaining;
    var ix := Padded([Int(j)], |w.shape|);
    PaddedIndex(w, [Int(j)]);
    IndexEntries(w, ix, i);
    AllFullFrom(ix[1..], w.shape[1..], i);
    IntFirst(ix, w.shape, i);
  }

  /** Full slices keep everything in place. */
  lemma {:induction false} AllFullFrom(ix: seq<PyIndex>, s: Shape, i: Index)
    requires |ix| == |s| && forall k :: 0 <= k < |ix| ==> ix[k] == FULL
    ensures Legal(ix, s) && Remaining(ix, s) == s && (|i| == |s| ==> From(ix, s, i) == i)
  {
    hide Count, Lower, Stride, Position, From, Remaining;
    assert forall k :: 0 <= k < |ix| ==> ix[k] == FULL && Stride(FULL) > 0 by { FullCount(0); }
    if ix == [] {
      EmptyIndex(i);
    } else {
      assert forall k :: 0 <= k < |ix| - 1 ==> ix[1..][k] == ix[k + 1];
      LegalTail(ix, s);
      AllFullFrom(ix[1..], s[1..], if i == [] then [] else i[1..]);
      FullCount(s[0]);
      SliceFirst(ix, s, i);
    }
  }

  lemma FullCount(n: nat)
    ensures Count(FULL, n, n) == n && Stride(FULL) == 1 && forall i: nat :: Position(FULL, n, i) == i
  {
    CountIs(FULL, n, n);
    DivModUnique(n, 0, 1);
  }

  /** The slice keeps the single position of A, or nothing of B. */
  predicate SliceKeepsA(l: Lora, p: PyIndex)
    requires p.Slice?
  {
    var n := l.B.shape[0];
    Stride(p) > 0 && (Keeps(p, 1, 0) || Count(p, n, n) == 0)
  }

  /** The same for a slice of the first axis. */
  lemma GetSliceEntries(l: Lora, p: PyIndex, i: Index)
    requires Broadcasts(l) && p.Slice? && GetSlice(l, p).Success?
    requires Dims(l) == 2 || l.A.shape[0] == l.B.shape[0] || SliceKeepsA(l, p)
    ensures var r, n := GetSlice(l, p).value, ShapeOf(l)[0];
      && Broadcasts(r) && Stride(p) > 0 && ShapeOf(r) == ShapeOf(l)[0 := Count(p, n, n)]
      && (InBounds(i, ShapeOf(r)) ==> var x := i[0 := Position(p, n, i[0])];
            InBounds(x, ShapeOf(l)) && At(Dense(r), i) == At(Dense(l), x))
  {
    hide TorchIndex, Dense, At, GetSlice, Count, Stride, Lower, Position, SliceKeepsA;
    SliceHolds(l, p);
    SlicedEntries(Dense(l), p, i);
  }

  lemma SliceHolds(l: Lora, p: PyIndex)
    requires Broadcasts(l) && p.Slice? && GetSlice(l, p).Success?
    requires Dims(l) == 2 || l.A.shape[0] == l.B.shape[0] || SliceKeepsA(l, p)
    ensures var r := GetSlice(l, p).value; Broadcasts(r) && TorchIndex(Dense(l), [p]) == Success(Dense(r))
    ensures Stride(p) > 0
  {
    hide TorchIndex, Dense, GetSlice, Count, Keeps, Resolve;
    GetSliceMeaning(l, p);
    SliceMeaning(p, l.A.shape[0]);
    SliceMeaning(p, 1);
    SliceMeaning(p, l.B.shape[0]);
    KeepsOne(p);
  }

  /** A slice of the first axis of a tensor, entry by entry. */
  lemma SlicedEntries(w: Tensor, p: PyIndex, i: Index)
    requires w.shape != [] && p.Slice? && Stride(p) > 0 && TorchIndex(w, [p]).Success?
    ensures var r, n := TorchIndex(w, [p]).value, w.shape[0];
      && r.shape == w.shape[0 := Count(p, n, n)]
      && (InBounds(i, r.shape) ==> var x := i[0 := Position(p, n, i[0])];
            InBounds(x, w.shape) && At(r, i) == At(w, x))
  {
    hide TorchIndex, At, Count, Stride, Lower, Position, From, Remaining, Legal;
    PaddedIndex(w, [p]);
    IndexEntries(w, Padded([p], |w.shape|), i);
    FirstSliced(p, w.shape, i);
  }

  lemma KeepsOne(p: PyIndex)
    requires p.Slice? && Stride(p) > 0
    ensures Keeps(p, 1, 0) ==> Count(p, 1, 1) == 1
  {
    assert Count(p, 1, 0) == 0;
  }

  lemma ReplaceFirst(s: seq<nat>, x: nat)
    requires s != []
    ensures [x] + s[1..] == s[0 := x]
  {}

  lemma FirstSliced(p: PyIndex, s: Shape, i: Index)
    requires s != [] && p.Slice? && Stride(p) > 0
    ensures var ix, c := Padded([p], |s|), Count(p, s[0], s[0]);
      && Legal(ix, s) && Remaining(ix, s) == s[0 := c]
      && (|i| == |s| ==> From(ix, s, i) == i[0 := Position(p, s[0], i[0])])
  {
    hide Count, Lower, Stride, Remaining, From, Legal;
    var ix := Padded([p], |s|);
    AllFullFrom(ix[1..], s[1..], if i == [] then [] else i[1..]);
    FirstLegal(ix, s);
    SliceFirst(ix, s, i);
    ReplaceFirst(s, Count(p, s[0], s[0]));
    if |i| == |s| { ReplaceFirst(i, Position(p, s[0], i[0])); }
  }

  lemma FirstLegal(ix: seq<PyIndex>, s: Shape)
    requires |ix| == |s| > 0 && ix[0].Slice? && Stride(ix[0]) > 0 && Legal(ix[1..], s[1..])
    ensures Legal(ix, s)
  {
    forall k | 0 <= k < |ix| ensures if ix[k].Int? then 0 <= ix[k].j + s[k] && ix[k].j < s[k] else Stride(ix[k]) > 0 {
      if k > 0 { assert ix[k] == ix[1..][k - 1] && s[k] == s[1..][k - 1]; }
    }
  }

  // ---------- permutations ----------

  /** The entry of a permuted product: axis k of the result is axis dims[k] of the product. */
  lemma PermuteEntries(l: Lora, dims: seq<int>, i: Index, j: Index)
    requires Broadcasts(l) && Permute(l, dims).Success? && forall k :: 0 <= k < |dims| ==> dims[k] < Dims(l)
    requires InBounds(j, ShapeOf(l)) && |i| == |dims|
    requires forall k, a :: 0 <= k < |i| && 0 <= a < |j| && a == NormalAxis(dims[k], Dims(l)) ==> i[k] == j[a]
    ensures var r, n := Permute(l, dims).value, Dims(l);
      && Broadcasts(r) && |dims| == n == Dims(r)
      && (forall k :: 0 <= k < n ==> 0 <= NormalAxis(dims[k], n) < n && ShapeOf(r)[k] == ShapeOf(l)[NormalAxis(dims[k], n)])
      && InBounds(i, ShapeOf(r)) && At(Dense(r), i) == At(Dense(l), j)
  {
    hide PermuteT, Dense, At, Permute, Unpermuted;
    var n := Dims(l);
    PermuteMeaning(l, dims);
    var d := NormalAxes(dims, n);
    forall k | 0 <= k < n ensures i[k] == j[d[k]] { assert d[k] == NormalAxis(dims[k], n); }
    assert InBounds(i, PermutedShape(ShapeOf(l), d));
    PermuteAt(Dense(l), d, i);
    UnpermutedUnique(i, d, j);
  }

  // ---------- chunks ----------

  /** The lengths of the chunks: all but the last are full, and the last holds what is left; sections are as given. */
  lemma ChunkLengths(spec: SplitSize, n: nat)
    ensures var c := ChunkSizes(spec, n);
      match spec
      case Every(size) =>
        && (c.Some? <==> size > 0 || (size == 0 && n == 0))
        && (c.Some? ==> c.value != [] && forall k :: 0 <= k < |c.value| - 1 ==> c.value[k] == size)
        && (c.Some? && n > 0 ==> 0 < c.value[|c.value| - 1] <= size)
      case Sections(ss) =>
        && (c.Some? ==> |c.value| == |ss| && forall k :: 0 <= k < |ss| ==> ss[k] == c.value[k])
        && (c.Some? <==> (forall k :: 0 <= k < |ss| ==> ss[k] >= 0) && Total(ss) == n)
  {
    match spec
    case Every(size) => if size > 0 { EvenSizesAre(n, size); }
    case Sections(ss) => if AllNat(ss) { TotalIsSum(ss); }
  }

  function Total(s: seq<int>): int {
    if s == [] then 0 else s[0] + Total(s[1..])
  }

  lemma {:induction false} TotalIsSum(s: seq<int>)
    requires AllNat(s)
    ensures Total(s) == Sum(AsShape(s))
  {
    if s != [] {
      TotalIsSum(s[1..]);
      assert AsShape(s)[1..] == AsShape(s[1..]);
    }
  }

  lemma {:induction false} EvenSizesAre(n: nat, size: nat)
    requires size > 0
    ensures var c := EvenSizes(n, size);
      && (forall k :: 0 <= k < |c| - 1 ==> c[k] == size)
      && (n > 0 ==> 0 < c[|c| - 1] <= size)
  {
    if n > size {
      EvenSizesAre(n - size, size);
      var c := EvenSizes(n - size, size);
      assert EvenSizes(n, size) == [size] + c;
    }
  }

  /** Where chunk k begins. */
  function Offset(sizes: seq<nat>, k: nat): nat
    requires k <= |sizes|
  {
    if k == 0 then 0 else Offset(sizes, k - 1) + sizes[k - 1]
  }

  lemma {:induction false} OffsetTail(sizes: seq<nat>, k: nat)
    requires 0 < k <= |sizes|
    ensures Offset(sizes, k) == sizes[0] + Offset(sizes[1..], k - 1)
  {
    if k > 1 { OffsetTail(sizes, k - 1); }
  }

  lemma {:induction false} ChunkIs(t: Tensor, d: nat, sizes: seq<nat>, lo: nat, k: nat)
    requires d < |t.shape| && lo + Sum(sizes) <= t.shape[d] && k < |sizes|
    ensures lo + Offset(sizes, k) + sizes[k] <= t.shape[d]
    ensures SplitT(t, d, sizes, lo)[k] == Narrow(t, d, lo + Offset(sizes, k), sizes[k])
    decreases |sizes|
  {
    hide Narrow;
    if k > 0 {
      ChunkIs(t, d, sizes[1..], lo + sizes[0], k - 1);
      OffsetTail(sizes, k);
    }
  }

  /** Chunk k of a split along axis d holds the positions from its offset on, as many as its length. */
  lemma SplitEntries(l: Lora, spec: SplitSize, dim: int, k: nat, i: Index)
    requires Broadcasts(l) && AxisOk(dim, Dims(l)) && Split(l, spec, dim).Success? && k < |Split(l, spec, dim).value|
    ensures var c, d := Split(l, spec, dim).value[k], NormalAxis(dim, Dims(l));
      && ChunkSizes(spec, ShapeOf(l)[d]).Some?
      && var sizes := ChunkSizes(spec, ShapeOf(l)[d]).value;
      && |Split(l, spec, dim).value| == |sizes| && Broadcasts(c) && ShapeOf(c) == ShapeOf(l)[d := sizes[k]]
      && (InBounds(i, ShapeOf(c)) ==> var x := i[d := Offset(sizes, k) + i[d]];
            InBounds(x, ShapeOf(l)) && At(Dense(c), i) == At(Dense(l), x))
  {
    hide Dense, Split, ChunkSizes, At, SplitT, Broadcasts, ShapeOf, Offset;
    ChunkStands(l, spec, dim, k);
    ChunkEntries(Dense(l), NormalAxis(dim, Dims(l)), ChunkSizes(spec, ShapeOf(l)[NormalAxis(dim, Dims(l))]).value, k, i);
  }

  lemma ChunkStands(l: Lora, spec: SplitSize, dim: int, k: nat)
    requires Broadcasts(l) && AxisOk(dim, Dims(l)) && Split(l, spec, dim).Success? && k < |Split(l, spec, dim).value|
    ensures var c, d := Split(l, spec, dim).value[k], NormalAxis(dim, Dims(l));
      && ChunkSizes(spec, ShapeOf(l)[d]).Some?
      && var sizes := ChunkSizes(spec, ShapeOf(l)[d]).value;
      && |Split(l, spec, dim).value| == |sizes| && Broadcasts(c) && Dense(c) == SplitT(Dense(l), d, sizes, 0)[k]
  {
    hide Dense, Split, ChunkSizes, SplitT, Broadcasts, ShapeOf;
    SplitMeaning(l, spec, dim);
  }

  lemma ChunkEntries(w: Tensor, d: nat, sizes: seq<nat>, k: nat, i: Index)
    requires d < |w.shape| && Sum(sizes) <= w.shape[d] && k < |sizes|
    ensures var c := SplitT(w, d, sizes, 0)[k];
      && c.shape == w.shape[d := sizes[k]]
      && (InBounds(i, c.shape) ==> var x := i[d := Offset(sizes, k) + i[d]]; InBounds(x, w.shape) && At(c, i) == At(w, x))
  {
    hide Narrow, At, SplitT;
    ChunkIs(w, d, sizes, 0, k);
    NarrowShape(w, d, Offset(sizes, k), sizes[k]);
    if InBounds(i, w.shape[d := sizes[k]]) { NarrowAt(w, d, Offset(sizes, k), sizes[k], i); }
  }

  // ---------- concatenations ----------

  lemma JoinedFirst(ts: seq<Tensor>, i: Index)
    requires AllJoinable(ts, 0) && |ts| > 1 && InBounds(i, ts[0].shape)
    ensures InBounds(i, JoinAll(ts, 0).shape) && At(JoinAll(ts, 0), i) == At(ts[0], i)
  {
    hide Join, At;
    JoinableTail(ts);
    var rest := JoinAll(ts[1..], 0);
    InBoundsFirst(i, ts[0].shape, JoinAll(ts, 0).shape);
    JoinAt(ts[0], rest, 0, i);
  }

  lemma NoOffset(s: seq<nat>)
    ensures Offset(s, 0) == 0
  {}

  lemma AxesTail(ts: seq<Tensor>, p: nat)
    requires |ts| > 1 && 0 < p < |ts| && forall k :: 0 <= k < |ts| ==> |ts[k].shape| > 0
    ensures (forall k :: 0 <= k < |ts| - 1 ==> |ts[1..][k].shape| > 0)
    ensures Offset(FirstAxes(ts), p) == ts[0].shape[0] + Offset(FirstAxes(ts[1..]), p - 1)
  {
    hide Offset;
    assert FirstAxes(ts)[1..] == FirstAxes(ts[1..]);
    OffsetTail(FirstAxes(ts), p);
  }

  lemma AllHaveAxes(ts: seq<Tensor>)
    requires AllJoinable(ts, 0)
    ensures forall k :: 0 <= k < |ts| ==> |ts[k].shape| > 0
  {
    forall k | 0 <= k < |ts| ensures |ts[k].shape| > 0 { assert Joinable(ts[0], ts[k], 0); }
  }

  lemma {:induction false} JoinedEntries(ts: seq<Tensor>, p: nat, i: Index)
    requires AllJoinable(ts, 0) && p < |ts| && InBounds(i, ts[p].shape)
    ensures (forall k :: 0 <= k < |ts| ==> |ts[k].shape| > 0)
    ensures var x := i[0 := Offset(FirstAxes(ts), p) + i[0]];
      InBounds(x, JoinAll(ts, 0).shape) && At(JoinAll(ts, 0), x) == At(ts[p], i)
    decreases |ts|
  {
    hide Join, At, JoinAll, AllJoinable, FirstAxes, Offset;
    AllHaveAxes(ts);
    if p == 0 { assert Offset(FirstAxes(ts), 0) == 0 && i[0 := 0 + i[0]] == i by { NoOffset(FirstAxes(ts)); } }
    if |ts| == 1 {
      assert ts == [ts[0]];
      OneJoins(ts[0], 0);
    } else if p == 0 {
      JoinedFirst(ts, i);
    } else {
      JoinableTail(ts);
      assert ts[1..][p - 1] == ts[p];
      JoinedEntries(ts[1..], p - 1, i);
      AxesTail(ts, p);
      var y := i[0 := Offset(FirstAxes(ts[1..]), p - 1) + i[0]];
      JoinShifted(ts[0], JoinAll(ts[1..], 0), y, i[0 := Offset(FirstAxes(ts), p) + i[0]]);
    }
  }

  lemma InBoundsFirst(i: Index, s: Shape, t: Shape)
    requires InBounds(i, s) && s != [] && |s| == |t| && s[0] <= t[0] && forall k :: 1 <= k < |s| ==> s[k] == t[k]
    ensures InBounds(i, t)
  {}

  lemma JoinShifted(a: Tensor, b: Tensor, y: Index, x: Index)
    requires Joinable(a, b, 0) && InBounds(y, b.shape) && x == y[0 := a.shape[0] + y[0]]
    ensures InBounds(x, Join(a, b, 0).shape) && At(Join(a, b, 0), x) == At(b, y)
  {
    hide Join, At;
    forall k | 0 <= k < |x| ensures x[k] < JoinedShape(a, b, 0)[k] {}
    JoinAt(a, b, 0, x);
    assert Shifted(x, 0, a.shape[0]) == y;
  }

  /** Entry i of piece p is found in the concatenation behind all positions of the pieces before it. */
  lemma CatEntries(ls: seq<Lora>, p: nat, i: Index)
    requires Cat(ls).Success? && (forall k :: 0 <= k < |ls| ==> Broadcasts(ls[k])) && Broadcasts(Cat(ls).value)
    requires Dims(ls[0]) == 2 || SumA(ls) == 1 || NoEmptyShare(ls)
    requires p < |ls| && InBounds(i, ShapeOf(ls[p]))
    ensures var r, x := Cat(ls).value, i[0 := Offset(Lengths(ls), p) + i[0]];
      InBounds(x, ShapeOf(r)) && At(Dense(r), x) == At(Dense(ls[p]), i)
  {
    hide Dense, At, Cat, JoinAll, SumA, SumB, NoEmptyShare, Broadcasts, FirstAxes, Offset, AllJoinable;
    CatMeaning(ls);
    JoinedEntries(Denses(ls), p, i);
    LengthsAre(ls);
  }

  lemma LengthsAre(ls: seq<Lora>)
    requires forall k :: 0 <= k < |ls| ==> Broadcasts(ls[k])
    ensures FirstAxes(Denses(ls)) == Lengths(ls)
  {
    hide Dense;
  }

  function Lengths(ls: seq<Lora>): (r: seq<nat>)
    ensures |r| == |ls| && forall k :: 0 <= k < |ls| ==> r[k] == ShapeOf(ls[k])[0]
  {
    seq(|ls|, k requires 0 <= k < |ls| => ShapeOf(ls[k])[0])
  }

  /** Entry i of piece p is entry [p] + i of the stack. */
  lemma StackedEntries(ls: seq<Lora>, p: nat, i: Index)
    requires Stack(ls).Success? && (forall k :: 0 <= k < |ls| ==> Broadcasts(ls[k])) && p < |ls| && InBounds(i, ShapeOf(ls[p]))
    ensures var r := Stack(ls).value;
      Broadcasts(r) && InBounds([p] + i, ShapeOf(r)) && At(Dense(r), [p] + i) == At(Dense(ls[p]), i)
  {
    hide Dense, At, Stack, TorchStack;
    StackMeaning(ls);
    StackAt(Denses(ls), p, i);
  }

  // ---------- multiples ----------

  /** The index into a factor whose axes are those of the product from the right: 0 where it has length 1. */
  function Aligned(i: Index, m: Shape): Index
    requires |m| <= |i|
  {
    Stretch(i[|i| - |m|..], m)
  }

  lemma AlignedCons(i: Index, s: Shape)
    requires |s| < |i|
    ensures Aligned(i, [1] + s) == [0] + Aligned(i, s)
  {
    var a, b, c := Aligned(i, s), Aligned(i, [1] + s), |i| - |s|;
    forall k | 0 <= k < |b| ensures b[k] == ([0] + a)[k] {
      if k > 0 { assert i[c - 1..][k] == i[c..][k - 1] && ([1] + s)[k] == s[k - 1]; }
    }
  }

  lemma BoundsCons(a: Index, s: Shape)
    ensures InBounds([0] + a, [1] + s) <==> InBounds(a, s)
  {
    if InBounds([0] + a, [1] + s) {
      forall k | 0 <= k < |a| ensures a[k] < s[k] { assert ([0] + a)[k + 1] < ([1] + s)[k + 1]; }
    }
  }

  lemma OneMoreEntry(m: Tensor, a: Index)
    requires InBounds(a, m.shape)
    ensures InBounds([0] + a, OneMore(m).shape) && At(OneMore(m), [0] + a) == At(m, a)
  {
    hide Flat;
    FlatCons(0, a, OneMore(m).shape);
  }

  lemma WholeAligned(i: Index, s: Shape)
    requires |s| == |i|
    ensures Aligned(i, s) == Stretch(i, s)
  {
    assert i[0..] == i;
  }

  lemma {:induction false} PaddedEntry(m: Tensor, n: nat, i: Index)
    requires |m.shape| <= n == |i| && InBounds(Aligned(i, m.shape), m.shape)
    ensures var p := LoraScale.Padded(m, n);
      InBounds(Stretch(i, p.shape), p.shape) && At(p, Stretch(i, p.shape)) == At(m, Aligned(i, m.shape))
    decreases n - |m.shape|
  {
    hide Stretch, Aligned, At;
    if |m.shape| == n {
      WholeAligned(i, m.shape);
    } else {
      PaddedStep(m, n);
      AlignedCons(i, m.shape);
      OneMoreEntry(m, Aligned(i, m.shape));
      hide LoraScale.Padded, InBounds;
      PaddedEntry(OneMore(m), n, i);
    }
  }

  function OneMore(m: Tensor): (q: Tensor)
    ensures q.shape == [1] + m.shape && q.data == m.data && q.shape[1..] == m.shape
  {
    assert ([1] + m.shape)[1..] == m.shape;
    RawTensor([1] + m.shape, m.data)
  }

  lemma PaddedStep(m: Tensor, n: nat)
    requires |m.shape| < n
    ensures LoraScale.Padded(m, n) == LoraScale.Padded(OneMore(m), n)
  {}

  /** The multiple holds at each index the product of the entries, the axes of the multiplier aligned from the right and
      stretched where they have length 1. */
  lemma MulEntries(l: Lora, m: Tensor, i: Index)
    requires Broadcasts(l) && LoraScale.Mul(l, m).Success? && InBounds(i, ShapeOf(LoraScale.Mul(l, m).value))
    ensures var r := LoraScale.Mul(l, m).value;
      && Broadcasts(r) && |m.shape| <= Dims(l) == |i|
      && InBounds(Stretch(i, ShapeOf(l)), ShapeOf(l)) && InBounds(Aligned(i, m.shape), m.shape)
      && At(Dense(r), i) == At(Dense(l), Stretch(i, ShapeOf(l))) * At(m, Aligned(i, m.shape))
  {
    hide Dense, At, LoraScale.Mul, LoraScale.TorchMul, LoraScale.Padded;
    LoraScale.MulMeaning(l, m);
    LoraScale.MulAt(Dense(l), m, i);
    var p := LoraScale.Padded(m, Dims(l));
    LoraScale.StretchFits(i, ShapeOf(l), p.shape);
    AlignedFits(m, Dims(l), i);
    PaddedEntry(m, Dims(l), i);
  }

  lemma {:induction false} AlignedFits(m: Tensor, n: nat, i: Index)
    requires |m.shape| <= n == |i|
    requires InBounds(Stretch(i, LoraScale.Padded(m, n).shape), LoraScale.Padded(m, n).shape)
    ensures InBounds(Aligned(i, m.shape), m.shape)
    decreases n - |m.shape|
  {
    hide Stretch, Aligned;
    if |m.shape| == n {
      WholeAligned(i, m.shape);
    } else {
      PaddedStep(m, n);
      hide LoraScale.Padded, InBounds;
      AlignedFits(OneMore(m), n, i);
      AlignedCons(i, m.shape);
      BoundsCons(Aligned(i, m.shape), m.shape);
    }
  }

  // ---------- the product itself ----------

  /** The entry of A that meets entry k of a row of B: leading axes of length 1 are stretched. */
  function InA(l: Lora, i: Index, k: nat): (a: Index)
    requires |i| == Dims(l)
  {
    var n := Dims(l);
    seq(n, x requires 0 <= x < n => if x == n - 1 then i[x] else if x == n - 2 then k else if l.A.shape[x] == 1 then 0 else i[x])
  }

  function InB(l: Lora, i: Index, k: nat): (b: Index)
    requires |i| == Dims(l)
  {
    i[Dims(l) - 1 := k]
  }

  lemma FactorEntries(l: Lora, i: Index, k: nat)
    requires Broadcasts(l) && InBounds(i, ShapeOf(l)) && k < Rank(l)
    ensures InBounds(InB(l, i, k), l.B.shape) && InBounds(InA(l, i, k), l.A.shape)
    ensures Term(l, i, k) == At(l.B, InB(l, i, k)) * At(l.A, InA(l, i, k))
  {
    hide At;
    FactorIndices(l, i, k);
    assert IndexB(i, k) == InB(l, i, k);
    assert IndexA(i, LeadA(l), k) == InA(l, i, k);
  }

  function Products(l: Lora, i: Index): (s: seq<int>)
    requires Broadcasts(l) && InBounds(i, ShapeOf(l))
    ensures |s| == Rank(l)
  {
    seq(Rank(l), k requires 0 <= k < Rank(l) => FactorEntries(l, i, k); At(l.B, InB(l, i, k)) * At(l.A, InA(l, i, k)))
  }

  lemma {:induction false} TotalSnoc(s: seq<int>, x: int)
    ensures Total(s + [x]) == Total(s) + x
  {
    if s == [] {
      assert s + [x] == [x] && [x][1..] == [];
    } else {
      assert (s + [x])[1..] == s[1..] + [x];
      TotalSnoc(s[1..], x);
    }
  }

  lemma {:induction false} ContractIs(l: Lora, i: Index, m: nat)
    requires Broadcasts(l) && InBounds(i, ShapeOf(l)) && m <= Rank(l)
    ensures Contract(l, i, m) == Total(Products(l, i)[..m])
  {
    hide Term, At, InA, InB;
    var s := Products(l, i);
    if m > 0 {
      ContractIs(l, i, m - 1);
      FactorEntries(l, i, m - 1);
      assert s[..m] == s[..m - 1] + [s[m - 1]];
      TotalSnoc(s[..m - 1], s[m - 1]);
    }
  }

  /** Each entry of the product is the sum, over the rank, of an entry of B times an entry of A. */
  lemma DenseSums(l: Lora, i: Index)
    requires Broadcasts(l) && InBounds(i, ShapeOf(l))
    ensures At(Dense(l), i) == Total(Products(l, i))
  {
    hide At, Dense, Products, Contract;
    DenseAt(l, i);
    ContractIs(l, i, Rank(l));
    assert Products(l, i)[..Rank(l)] == Products(l, i);
  }
}
