/** Multiplying a factored tensor on the output side: only B is scaled. */
module LoraScale {
  import opened Wrappers
  import opened Tensors
  import opened LoraTensor

  // ---------- torch's product with broadcasting ----------

  /** The shape with leading ones, so that the last axes line up. */
  function Padded(m: Tensor, n: nat): (p: Tensor)
    requires |m.shape| <= n
    ensures |p.shape| == n && p.data == m.data
    ensures m.shape != [] ==> p.shape[n - 1] == m.shape[|m.shape| - 1]
    ensures m.shape == [] && n > 0 ==> p.shape[n - 1] == 1
    decreases n - |m.shape|
  {
    if |m.shape| == n then m
    else
      assert ([1] + m.shape)[1..] == m.shape;
      Padded(RawTensor([1] + m.shape, m.data), n)
  }

  predicate Compatible(s: Shape, t: Shape) {
    |s| == |t| && forall k :: 0 <= k < |s| ==> s[k] == t[k] || s[k] == 1 || t[k] == 1
  }

  function Wider(s: Shape, t: Shape): (r: Shape)
    requires |s| == |t|
    ensures |r| == |s| && forall k :: 0 <= k < |s| ==> r[k] == if s[k] == 1 then t[k] else s[k]
  {
    seq(|s|, k requires 0 <= k < |s| => if s[k] == 1 then t[k] else s[k])
  }

  lemma StretchFits(i: Index, s: Shape, t: Shape)
    requires Compatible(s, t) && InBounds(i, Wider(s, t))
    ensures InBounds(Stretch(i, s), s) && InBounds(Stretch(i, t), t)
  {
    forall k | 0 <= k < |s| ensures Stretch(i, s)[k] < s[k] && Stretch(i, t)[k] < t[k] { assert i[k] < Wider(s, t)[k]; }
  }

  function Product(t: Tensor, p: Tensor, i: Index): int
    requires Compatible(t.shape, p.shape) && InBounds(i, Wider(t.shape, p.shape))
  {
    StretchFits(i, t.shape, p.shape);
    At(t, Stretch(i, t.shape)) * At(p, Stretch(i, p.shape))
  }

  function TorchMul(t: Tensor, m: Tensor): (r: Result<Tensor>)
    requires |m.shape| <= |t.shape|
    ensures var p := Padded(m, |t.shape|);
      (r.Success? <==> Compatible(t.shape, p.shape)) && (r.Success? ==> r.value.shape == Wider(t.shape, p.shape))
  {
    var p := Padded(m, |t.shape|);
    if Compatible(t.shape, p.shape) then
      var s := Wider(t.shape, p.shape);
      Success(Tabulate(s, i requires InBounds(i, s) => Product(t, p, i)))
    else Failure
  }

  lemma MulAt(t: Tensor, m: Tensor, i: Index)
    requires |m.shape| <= |t.shape| && TorchMul(t, m).Success? && InBounds(i, TorchMul(t, m).value.shape)
    ensures At(TorchMul(t, m).value, i) == Product(t, Padded(m, |t.shape|), i)
  {
    var p := Padded(m, |t.shape|);
    var s := Wider(t.shape, p.shape);
    TabulateAt(s, j requires InBounds(j, s) => Product(t, p, j), i);
  }

  // ---------- scaling the factored tensor ----------

  /** A factor of higher rank would give B more axes than A, which the constructor refuses. */
  function Mul(l: Lora, m: Tensor): Result<Lora> {
    if m.shape != [] && m.shape[|m.shape| - 1] != 1 then Failure
    else if |m.shape| > Dims(l) then Failure
    else
      var b := TorchMul(l.B, m);
      if b.Failure? then Failure else Make(l.A, b.value)
  }

  predicate OutputSide(l: Lora, m: Tensor) {
    |m.shape| <= Dims(l) && (m.shape == [] || m.shape[|m.shape| - 1] == 1)
  }

  lemma SameCompatibility(l: Lora, p: Tensor)
    requires |p.shape| == Dims(l) && p.shape[Dims(l) - 1] == 1
    ensures Compatible(l.B.shape, p.shape) <==> Compatible(ShapeOf(l), p.shape)
    ensures Wider(ShapeOf(l), p.shape) == Wider(l.B.shape, p.shape)[..Dims(l) - 1] + [Cols(l)]
    ensures Wider(l.B.shape, p.shape)[Dims(l) - 1] == Rank(l)
  {
    var s, n := ShapeOf(l), Dims(l);
    assert forall k :: 0 <= k < n - 1 ==> s[k] == l.B.shape[k];
    assert Wider(s, p.shape) == Wider(l.B.shape, p.shape)[..n - 1] + [Cols(l)];
  }

  lemma MulMakes(l: Lora, m: Tensor)
    requires Broadcasts(l) && OutputSide(l, m)
    ensures Mul(l, m).Success? <==> TorchMul(Dense(l), m).Success?
    ensures Mul(l, m).Success? ==> var r := Mul(l, m).value;
      && TorchMul(l.B, m) == Success(r.B) && r.A == l.A && Rank(r) == Rank(l)
      && Broadcasts(r) && ShapeOf(r) == TorchMul(Dense(l), m).value.shape
  {
    hide TorchMul, Dense, Padded, Broadcasts, Compatible, Wider;
    var p := Padded(m, Dims(l));
    SameCompatibility(l, p);
    if TorchMul(l.B, m).Success? {
      WiderBroadcasts(l, RawLora(l.A, TorchMul(l.B, m).value), p.shape);
    }
  }

  lemma WiderBroadcasts(l: Lora, r: Lora, p: Shape)
    requires Broadcasts(l) && r.A == l.A && Compatible(l.B.shape, p) && r.B.shape == Wider(l.B.shape, p)
    ensures Broadcasts(r)
  {
    forall k | 0 <= k < Dims(l) - 2 ensures r.A.shape[k] == 1 || r.A.shape[k] == r.B.shape[k] {
      assert l.A.shape[k] == 1 || l.A.shape[k] == l.B.shape[k];
    }
  }

  /** The index into the unscaled product. */
  lemma ScaledIndices(l: Lora, p: Shape, i: Index, k: nat)
    requires Broadcasts(l) && |p| == Dims(l) && p[Dims(l) - 1] == 1 && Compatible(l.B.shape, p) && k < Rank(l)
    requires InBounds(i, Wider(ShapeOf(l), p))
    ensures var j := Stretch(i, ShapeOf(l));
      && InBounds(j, ShapeOf(l))
      && Stretch(IndexB(i, k), l.B.shape) == IndexB(j, k) && IndexA(i, LeadA(l), k) == IndexA(j, LeadA(l), k)
      && Stretch(IndexB(i, k), p) == Stretch(i, p)
  {
    var n, j := Dims(l), Stretch(i, ShapeOf(l));
    var s, w := ShapeOf(l), Wider(ShapeOf(l), p);
    forall t | 0 <= t < n ensures j[t] < s[t] { assert i[t] < w[t]; }
    assert Stretch(IndexB(i, k), l.B.shape) == IndexB(j, k);
    assert j[n - 1] == i[n - 1] by { assert i[n - 1] < w[n - 1]; }
    var x, y := Stretch(i[..n - 2], LeadA(l)), Stretch(j[..n - 2], LeadA(l));
    forall t | 0 <= t < n - 2 ensures x[t] == y[t] { assert l.A.shape[t] == 1 || l.A.shape[t] == l.B.shape[t]; }
    assert x == y;
    assert Stretch(IndexB(i, k), p) == Stretch(i, p);
  }

  /** The scaled entry of B. */
  lemma ScaledB(l: Lora, m: Tensor, i: Index, k: nat)
    requires Broadcasts(l) && OutputSide(l, m) && TorchMul(l.B, m).Success? && k < Rank(l)
    requires InBounds(i, Wider(ShapeOf(l), Padded(m, Dims(l)).shape))
    requires InBounds(IndexB(i, k), TorchMul(l.B, m).value.shape)
    ensures var p, j := Padded(m, Dims(l)), Stretch(i, ShapeOf(l));
      && InBounds(IndexB(j, k), l.B.shape) && InBounds(Stretch(i, p.shape), p.shape)
      && At(TorchMul(l.B, m).value, IndexB(i, k)) == At(l.B, IndexB(j, k)) * At(p, Stretch(i, p.shape))
  {
    hide TorchMul, Padded, At, Stretch, IndexB, IndexA, Wider, Compatible;
    var p := Padded(m, Dims(l));
    ScaledIndices(l, p.shape, i, k);
    StretchFits(IndexB(i, k), l.B.shape, p.shape);
    MulAt(l.B, m, IndexB(i, k));
  }

  lemma TermScales(l: Lora, r: Lora, i: Index, j: Index, k: nat, c: int)
    requires Broadcasts(l) && Broadcasts(r) && r.A == l.A && k < Rank(l) == Rank(r)
    requires InBounds(i, ShapeOf(r)) && InBounds(j, ShapeOf(l)) && IndexA(i, LeadA(l), k) == IndexA(j, LeadA(l), k)
    requires InBounds(IndexB(i, k), r.B.shape) && InBounds(IndexB(j, k), l.B.shape)
    requires At(r.B, IndexB(i, k)) == At(l.B, IndexB(j, k)) * c
    ensures Term(r, i, k) == c * Term(l, j, k)
  {
    hide At, IndexA, IndexB, ShapeOf, Broadcasts, Rank, InBounds;
    FactorIndices(r, i, k);
    FactorIndices(l, j, k);
    assert LeadA(r) == LeadA(l);
    Regroup(At(l.B, IndexB(j, k)), c, At(l.A, IndexA(j, LeadA(l), k)));
  }

  lemma ScaledTerm(l: Lora, m: Tensor, r: Lora, i: Index, k: nat)
    requires Broadcasts(l) && Broadcasts(r) && OutputSide(l, m) && k < Rank(l) == Rank(r)
    requires TorchMul(l.B, m) == Success(r.B) && r.A == l.A
    requires |i| == Dims(l) && InBounds(i, ShapeOf(r)) && InBounds(i, Wider(ShapeOf(l), Padded(m, Dims(l)).shape))
    ensures var p, j := Padded(m, Dims(l)), Stretch(i, ShapeOf(l));
      && InBounds(j, ShapeOf(l)) && InBounds(Stretch(i, p.shape), p.shape)
      && Term(r, i, k) == At(p, Stretch(i, p.shape)) * Term(l, j, k)
  {
    hide TorchMul, Padded, At, Stretch, IndexA, IndexB, Wider, Compatible, Term, ShapeOf, Broadcasts, InBounds;
    var p, j := Padded(m, Dims(l)), Stretch(i, ShapeOf(l));
    ScaledIndices(l, p.shape, i, k);
    FactorIndices(r, i, k);
    FactorIndices(l, j, k);
    ScaledB(l, m, i, k);
    TermScales(l, r, i, j, k, At(p, Stretch(i, p.shape)));
  }

  lemma Regroup(b: int, p: int, a: int)
    ensures (b * p) * a == p * (b * a)
  {}

  lemma Distribute(c: int, x: int, y: int)
    ensures c * (x + y) == c * x + c * y
  {}

  lemma {:induction false} ScaledSum(l: Lora, i: Index, r: Lora, j: Index, c: int, n: nat)
    requires Broadcasts(l) && InBounds(i, ShapeOf(l)) && n <= Rank(l)
    requires Broadcasts(r) && InBounds(j, ShapeOf(r)) && n <= Rank(r)
    requires forall k: nat :: k < n ==> Term(r, j, k) == c * Term(l, i, k)
    ensures Contract(r, j, n) == c * Contract(l, i, n)
    decreases n
  {
    hide Term;
    if n > 0 {
      ScaledSum(l, i, r, j, c, n - 1);
      Distribute(c, Contract(l, i, n - 1), Term(l, i, n - 1));
    }
  }

  lemma ScaledEntry(l: Lora, m: Tensor, i: Index)
    requires Broadcasts(l) && OutputSide(l, m) && Mul(l, m).Success? && Broadcasts(Mul(l, m).value)
    requires TorchMul(Dense(l), m).Success? && InBounds(i, ShapeOf(Mul(l, m).value))
    ensures InBounds(i, TorchMul(Dense(l), m).value.shape)
    ensures At(Dense(Mul(l, m).value), i) == At(TorchMul(Dense(l), m).value, i)
  {
    hide TorchMul, Dense, Padded, At, Stretch, Wider, Compatible, Mul, Term;
    var p, r, w := Padded(m, Dims(l)), Mul(l, m).value, Dense(l);
    MulMakes(l, m);
    MulAt(w, m, i);
    StretchFits(i, w.shape, p.shape);
    var j, c := Stretch(i, ShapeOf(l)), At(p, Stretch(i, p.shape));
    DenseAt(r, i);
    DenseAt(l, j);
    forall k: nat | k < Rank(l) ensures Term(r, i, k) == c * Term(l, j, k) { ScaledTerm(l, m, r, i, k); }
    ScaledSum(l, j, r, i, c, Rank(l));
  }

  /** Scaling B scales the product, for every factor that leaves the last axis alone. */
  lemma MulMeaning(l: Lora, m: Tensor)
    requires Broadcasts(l)
    ensures Mul(l, m).Success? <==> OutputSide(l, m) && TorchMul(Dense(l), m).Success?
    ensures Mul(l, m).Success? ==> Broadcasts(Mul(l, m).value) && TorchMul(Dense(l), m) == Success(Dense(Mul(l, m).value))
  {
    hide TorchMul, Dense, Padded, At;
    if OutputSide(l, m) {
      MulMakes(l, m);
      if Mul(l, m).Success? {
        var r, w := Mul(l, m).value, TorchMul(Dense(l), m).value;
        forall i | InBounds(i, Dense(r).shape) ensures At(Dense(r), i) == At(w, i) { ScaledEntry(l, m, i); }
        Extensional(Dense(r), w);
      }
    }
  }
}
