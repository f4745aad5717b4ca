/** A tensor stored as two low-rank factors. W is never formed by the program: every operation
    works on the factors. Here each operation is related to the dense product B·A. */
module LoraTensor {
  import opened Wrappers
  import opened Tensors

  datatype RawLora = RawLora(A: Tensor, B: Tensor)

  predicate FactorsAgree(A: Tensor, B: Tensor) {
    |A.shape| == |B.shape| >= 2 && A.shape[|A.shape| - 2] == B.shape[|B.shape| - 1]
  }

  /** What the constructor asserts of the two factors. */
  type Lora = l: RawLora | FactorsAgree(l.A, l.B)
    witness RawLora(RawTensor([1, 1], [0]), RawTensor([1, 1], [0]))

  function Make(A: Tensor, B: Tensor): Result<Lora> {
    if FactorsAgree(A, B) then Success(RawLora(A, B)) else Failure
  }

  function Dims(l: Lora): (n: nat)
    ensures n >= 2
  {
    |l.A.shape|
  }

  function Rank(l: Lora): nat { l.B.shape[Dims(l) - 1] }

  function Cols(l: Lora): nat { l.A.shape[Dims(l) - 1] }

  /** The shape the program reports: all but the last axis from B, the last axis from A. */
  function ShapeOf(l: Lora): (s: Shape)
    ensures |s| == Dims(l)
  {
    l.B.shape[..Dims(l) - 1] + [Cols(l)]
  }

  function LeadA(l: Lora): Shape { l.A.shape[..Dims(l) - 2] }

  function LeadB(l: Lora): Shape { l.B.shape[..Dims(l) - 2] }

  /** A's leading axes broadcast to B's: only then does the reported shape describe B·A. */
  predicate Broadcasts(l: Lora) {
    forall k :: 0 <= k < Dims(l) - 2 ==> l.A.shape[k] == 1 || l.A.shape[k] == l.B.shape[k]
  }

  predicate AllOnes(s: Shape) {
    forall k :: 0 <= k < |s| ==> s[k] == 1
  }

  /** The index into broadcast axes: 0 where the axis has length 1. */
  function Stretch(i: Index, s: Shape): (r: Index)
    requires |i| == |s|
    ensures |r| == |s|
  {
    seq(|s|, k requires 0 <= k < |s| => if s[k] == 1 then 0 else i[k])
  }

  function IndexB(i: Index, k: nat): (r: Index)
    requires |i| >= 2
    ensures |r| == |i|
  {
    i[..|i| - 1] + [k]
  }

  function IndexA(i: Index, lead: Shape, k: nat): (r: Index)
    requires |i| == |lead| + 2
    ensures |r| == |i|
  {
    Stretch(i[..|i| - 2], lead) + [k, i[|i| - 1]]
  }

  lemma FactorIndices(l: Lora, i: Index, k: nat)
    requires Broadcasts(l) && InBounds(i, ShapeOf(l)) && k < Rank(l)
    ensures InBounds(IndexB(i, k), l.B.shape)
    ensures InBounds(IndexA(i, LeadA(l), k), l.A.shape)
  {
    var n := Dims(l);
    var a := IndexA(i, LeadA(l), k);
    forall j | 0 <= j < n ensures a[j] < l.A.shape[j] {
      if j < n - 2 {
        assert i[j] < ShapeOf(l)[j];
      }
    }
    forall j | 0 <= j < n ensures IndexB(i, k)[j] < l.B.shape[j] {
      if j < n - 1 {
        assert i[j] < ShapeOf(l)[j];
      }
    }
  }

  function Term(l: Lora, i: Index, k: nat): int
    requires Broadcasts(l) && InBounds(i, ShapeOf(l)) && k < Rank(l)
  {
    FactorIndices(l, i, k);
    At(l.B, IndexB(i, k)) * At(l.A, IndexA(i, LeadA(l), k))
  }

  /** The first m terms of the contraction over the rank. */
  function Contract(l: Lora, i: Index, m: nat): int
    requires Broadcasts(l) && InBounds(i, ShapeOf(l)) && m <= Rank(l)
  {
    if m == 0 then 0 else Contract(l, i, m - 1) + Term(l, i, m - 1)
  }

  /** The tensor that the factors stand for: the batched matrix product B·A. */
  function Dense(l: Lora): (w: Tensor)
    requires Broadcasts(l)
    ensures w.shape == ShapeOf(l)
  {
    Tabulate(ShapeOf(l), i requires InBounds(i, ShapeOf(l)) => Contract(l, i, Rank(l)))
  }

  lemma DenseAt(l: Lora, i: Index)
    requires Broadcasts(l) && InBounds(i, ShapeOf(l))
    ensures At(Dense(l), i) == Contract(l, i, Rank(l))
  {
    TabulateAt(ShapeOf(l), i requires InBounds(i, ShapeOf(l)) => Contract(l, i, Rank(l)), i);
  }

  /** Two factorings that agree term by term along the contraction have equal sums. */
  lemma {:induction false} ContractEqual(l: Lora, i: Index, r: Lora, j: Index, m: nat)
    requires Broadcasts(l) && InBounds(i, ShapeOf(l)) && m <= Rank(l)
    requires Broadcasts(r) && InBounds(j, ShapeOf(r)) && m <= Rank(r)
    requires forall k: nat :: k < m ==> Term(l, i, k) == Term(r, j, k)
    ensures Contract(l, i, m) == Contract(r, j, m)
  {
    if m > 0 {
      ContractEqual(l, i, r, j, m - 1);
    }
  }
}
