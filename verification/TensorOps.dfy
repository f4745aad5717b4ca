/** The torch operations used on the factors, stated on dense tensors by what they do to each index. */
module TensorOps {
  import opened Wrappers
  import opened Tensors

  // ---------- reshape ----------

  function IntProd(s: seq<int>): int {
    if s == [] then 1 else s[0] * IntProd(s[1..])
  }

  /** The entries of `s` other than -1. */
  function Known(s: seq<int>): (r: seq<int>)
    ensures forall x :: x in r <==> x in s && x != -1
    ensures |r| <= |s| && (|r| == |s| <==> -1 !in s)
  {
    if s == [] then [] else (if s[0] == -1 then [] else [s[0]]) + Known(s[1..])
  }

  function Replace(s: seq<int>, q: int): (r: seq<int>)
    ensures |r| == |s|
    ensures forall k :: 0 <= k < |s| ==> r[k] == if s[k] == -1 then q else s[k]
  {
    seq(|s|, k requires 0 <= k < |s| => if s[k] == -1 then q else s[k])
  }

  predicate AllNat(s: seq<int>) {
    forall k :: 0 <= k < |s| ==> s[k] >= 0
  }

  function AsShape(s: seq<int>): (r: Shape)
    requires AllNat(s)
    ensures |r| == |s| && forall k :: 0 <= k < |s| ==> r[k] == s[k]
  {
    seq(|s|, k requires 0 <= k < |s| => s[k])
  }

  /** torch's own reshape: at most one -1, which is inferred from the number of entries. */
  function TorchReshape(t: Tensor, s: seq<int>): (r: Result<Tensor>)
    ensures r.Success? ==> r.value.data == t.data && |r.value.shape| == |s|
    ensures r.Success? && AllNat(s) ==> r.value.shape == AsShape(s)
    ensures AllNat(s) && Prod(AsShape(s)) == |t.data| ==> r.Success?
    ensures r.Success? ==> forall k :: 0 <= k < |s| ==> s[k] >= -1
  {
    if exists k :: 0 <= k < |s| && s[k] < -1 then Failure
    else if |Known(s)| < |s| - 1 then Failure
    else if |Known(s)| == |s| - 1 then
      var m := IntProd(Known(s));
      if m <= 0 || |t.data| % m != 0 then Failure
      else
        var e := Replace(s, |t.data| / m);
        if AllNat(e) && Prod(AsShape(e)) == |t.data| then Success(RawTensor(AsShape(e), t.data)) else Failure
    else if Prod(AsShape(s)) == |t.data| then Success(RawTensor(AsShape(s), t.data))
    else Failure
  }

  // ---------- permute ----------

  predicate IsPermutation(d: seq<nat>, n: nat) {
    && |d| == n
    && (forall k :: 0 <= k < n ==> d[k] < n)
    && (forall j, k :: 0 <= j < k < n ==> d[j] != d[k])
  }

  /** The position holding axis `a`; `|d|` when there is none. */
  function PosOf(d: seq<nat>, a: nat): (p: nat)
    ensures p <= |d|
    ensures p < |d| ==> d[p] == a
    ensures p == |d| <==> a !in d
  {
    if d == [] then 0 else if d[0] == a then 0 else 1 + PosOf(d[1..], a)
  }

  function UpTo(n: nat): (s: set<nat>)
    ensures |s| == n && forall x: nat :: x in s <==> x < n
  {
    if n == 0 then {} else UpTo(n - 1) + {n - 1}
  }

  function ElementsOf(d: seq<nat>): (s: set<nat>)
    ensures forall x :: x in s <==> x in d
    ensures (forall j, k :: 0 <= j < k < |d| ==> d[j] != d[k]) ==> |s| == |d|
  {
    if d == [] then {}
    else
      FirstIsNew(d);
      ElementsOf(d[1..]) + {d[0]}
  }

  lemma FirstIsNew(d: seq<nat>)
    requires d != []
    ensures (forall j, k :: 0 <= j < k < |d| ==> d[j] != d[k]) ==>
      d[0] !in d[1..] && forall j, k :: 0 <= j < k < |d| - 1 ==> d[1..][j] != d[1..][k]
  {}

  lemma SubsetOfSameSize(a: set<nat>, b: set<nat>)
    requires a <= b && |a| == |b|
    ensures a == b
  {
    assert |b - a| == |b| - |a|;
  }

  /** A list of n distinct axes below n mentions every axis. */
  lemma PermutationIsOnto(d: seq<nat>, n: nat, a: nat)
    requires IsPermutation(d, n) && a < n
    ensures PosOf(d, a) < n && d[PosOf(d, a)] == a
  {
    SubsetOfSameSize(ElementsOf(d), UpTo(n));
    assert a in ElementsOf(d);
  }

  function PermutedShape(s: Shape, d: seq<nat>): (r: Shape)
    requires IsPermutation(d, |s|)
    ensures |r| == |s|
  {
    seq(|s|, k requires 0 <= k < |s| => s[d[k]])
  }

  /** The index `s` with s[d[k]] == i[k]. */
  function Unpermuted(i: Index, d: seq<nat>): (r: Index)
    requires IsPermutation(d, |i|)
    ensures |r| == |i|
    ensures forall k :: 0 <= k < |i| ==> r[d[k]] == i[k]
  {
    var r := seq(|i|, a requires 0 <= a < |i| => PermutationIsOnto(d, |i|, a); i[PosOf(d, a)]);
    assert forall k :: 0 <= k < |i| ==> r[d[k]] == i[k] by {
      forall k | 0 <= k < |i| ensures r[d[k]] == i[k] { PermutationIsOnto(d, |i|, d[k]); }
    }
    r
  }

  lemma UnpermutedUnique(i: Index, d: seq<nat>, r: Index)
    requires IsPermutation(d, |i|) && |r| == |i|
    requires forall k :: 0 <= k < |i| ==> r[d[k]] == i[k]
    ensures r == Unpermuted(i, d)
  {
    forall a | 0 <= a < |i| ensures r[a] == Unpermuted(i, d)[a] {
      PermutationIsOnto(d, |i|, a);
    }
  }

  lemma UnpermutedInBounds(i: Index, d: seq<nat>, s: Shape)
    requires IsPermutation(d, |s|) && InBounds(i, PermutedShape(s, d))
    ensures InBounds(Unpermuted(i, d), s)
  {
    forall a | 0 <= a < |s| ensures Unpermuted(i, d)[a] < s[a] {
      PermutationIsOnto(d, |s|, a);
    }
  }

  function PermuteT(t: Tensor, d: seq<nat>): (r: Tensor)
    requires IsPermutation(d, |t.shape|)
    ensures r.shape == PermutedShape(t.shape, d)
  {
    var s := PermutedShape(t.shape, d);
    Tabulate(s, i requires InBounds(i, s) => UnpermutedInBounds(i, d, t.shape); At(t, Unpermuted(i, d)))
  }

  lemma PermuteAt(t: Tensor, d: seq<nat>, i: Index)
    requires IsPermutation(d, |t.shape|) && InBounds(i, PermutedShape(t.shape, d))
    ensures InBounds(Unpermuted(i, d), t.shape)
    ensures At(PermuteT(t, d), i) == At(t, Unpermuted(i, d))
  {
    var s := PermutedShape(t.shape, d);
    UnpermutedInBounds(i, d, t.shape);
    TabulateAt(s, i requires InBounds(i, s) => UnpermutedInBounds(i, d, t.shape); At(t, Unpermuted(i, d)), i);
  }

  /** torch accepts axes counted from either end. */
  function NormalAxis(d: int, n: nat): int {
    if d < 0 then d + n else d
  }

  predicate AxesOk(dims: seq<int>, n: nat) {
    && |dims| == n
    && (forall k :: 0 <= k < n ==> 0 <= dims[k] + n && dims[k] < n)
    && (forall j, k :: 0 <= j < k < n ==> NormalAxis(dims[j], n) != NormalAxis(dims[k], n))
  }

  function NormalAxes(dims: seq<int>, n: nat): (d: seq<nat>)
    requires AxesOk(dims, n)
    ensures IsPermutation(d, n)
    ensures forall k :: 0 <= k < n ==> d[k] == NormalAxis(dims[k], n)
  {
    seq(n, k requires 0 <= k < n => NormalAxis(dims[k], n))
  }

  function TorchPermute(t: Tensor, dims: seq<int>): Result<Tensor> {
    if AxesOk(dims, |t.shape|) then Success(PermuteT(t, NormalAxes(dims, |t.shape|))) else Failure
  }

  // ---------- indexing ----------

  /** What one axis of an indexing keeps: one position, or an arithmetic progression of them. */
  datatype Pick = One(pos: nat) | Range(start: nat, len: nat, step: nat)

  predicate PickOk(p: Pick, n: nat) {
    match p
    case One(x) => x < n
    case Range(lo, len, step) => step >= 1 && (len > 0 ==> lo + step * (len - 1) < n)
  }

  predicate PicksOk(ps: seq<Pick>, s: Shape) {
    |ps| == |s| && forall k :: 0 <= k < |s| ==> PickOk(ps[k], s[k])
  }

  function PosAt(p: Pick, i: nat): nat
    requires p.Range?
  {
    p.start + p.step * i
  }

  /** Only ranges leave an axis behind. */
  function PickedShape(ps: seq<Pick>): Shape {
    if ps == [] then []
    else if ps[0].One? then PickedShape(ps[1..])
    else [ps[0].len] + PickedShape(ps[1..])
  }

  /** Where the entry at `i` of the result comes from. */
  function Source(ps: seq<Pick>, i: Index): (r: Index)
    requires |i| == |PickedShape(ps)|
    ensures |r| == |ps|
  {
    if ps == [] then []
    else if ps[0].One? then [ps[0].pos] + Source(ps[1..], i)
    else [PosAt(ps[0], i[0])] + Source(ps[1..], i[1..])
  }

  lemma ProgressionBound(lo: nat, step: nat, i: nat, len: nat, n: nat)
    requires i < len && lo + step * (len - 1) < n
    ensures lo + step * i < n
  {
    assert step * i <= step * (len - 1);
  }

  lemma {:induction false} SourceInBounds(ps: seq<Pick>, s: Shape, i: Index)
    requires PicksOk(ps, s) && InBounds(i, PickedShape(ps))
    ensures InBounds(Source(ps, i), s)
  {
    if ps != [] {
      assert forall k :: 0 <= k < |s| - 1 ==> ps[1..][k] == ps[k + 1] && s[1..][k] == s[k + 1];
      if ps[0].One? {
        SourceInBounds(ps[1..], s[1..], i);
      } else {
        ProgressionBound(ps[0].start, ps[0].step, i[0], ps[0].len, s[0]);
        SourceInBounds(ps[1..], s[1..], i[1..]);
      }
    }
  }

  function PickT(t: Tensor, ps: seq<Pick>): (r: Tensor)
    requires PicksOk(ps, t.shape)
    ensures r.shape == PickedShape(ps)
  {
    var s := PickedShape(ps);
    Tabulate(s, i requires InBounds(i, s) => SourceInBounds(ps, t.shape, i); At(t, Source(ps, i)))
  }

  lemma PickAt(t: Tensor, ps: seq<Pick>, i: Index)
    requires PicksOk(ps, t.shape) && InBounds(i, PickedShape(ps))
    ensures InBounds(Source(ps, i), t.shape)
    ensures At(PickT(t, ps), i) == At(t, Source(ps, i))
  {
    var s := PickedShape(ps);
    SourceInBounds(ps, t.shape, i);
    TabulateAt(s, i requires InBounds(i, s) => SourceInBounds(ps, t.shape, i); At(t, Source(ps, i)), i);
  }

  /** A Python subscript of one axis. */
  datatype PyIndex = Int(j: int) | Slice(start: Option<int>, stop: Option<int>, step: Option<int>)

  const FULL := Slice(None, None, None)

  function Clamp(x: int, n: nat): (r: nat)
    ensures r <= n
  {
    var y := if x < 0 then x + n else x;
    if y < 0 then 0 else if y > n then n else y
  }

  /** A subscript on an axis of length n; None is an IndexError or a ValueError. */
  function Resolve(p: PyIndex, n: nat): (r: Option<Pick>)
    ensures r.Some? ==> PickOk(r.value, n) && (r.value.One? <==> p.Int?)
    ensures r.Some? && r.value.Range? ==> r.value.len <= n
    ensures p == FULL ==> r == Some(Range(0, n, 1))
  {
    match p
    case Int(j) => if 0 <= j + n && j < n then Some(One(if j < 0 then j + n else j)) else None
    case Slice(start, stop, step) =>
      var st := if step.Some? then step.value else 1;
      if st <= 0 then None
      else
        var lo := if start.Some? then Clamp(start.value, n) else 0;
        var hi := if stop.Some? then Clamp(stop.value, n) else n;
        var len := if hi <= lo then 0 else (hi - lo + st - 1) / st;
        StepBound(lo, hi, st, n);
        Some(Range(lo, len, st))
  }

  lemma StepBound(lo: nat, hi: nat, st: int, n: nat)
    requires st >= 1 && hi <= n
    ensures hi > lo ==>
      var len := (hi - lo + st - 1) / st;
      0 < len <= hi - lo && lo + st * (len - 1) < n
  {
    if hi > lo {
      var m := hi - lo + st - 1;
      var len := m / st;
      assert m == len * st + m % st;
      MulMonotone(len, 0, st);
      assert len >= 1;
      assert st * (len - 1) == len * st - st;
      if st > 1 { QuotientBound(hi - lo, st); }
    }
  }

  lemma QuotientBound(w: int, st: int)
    requires w >= 1 && st >= 1
    ensures (w + st - 1) / st <= w
  {
    var q := (w + st - 1) / st;
    assert w + st - 1 == q * st + (w + st - 1) % st;
    MulMonotone(w + 1, q, st);
    assert w * st >= w by { assert w * (st - 1) >= 0; }
    assert (w + 1) * st == w * st + st;
  }

  function ResolveAll(ps: seq<PyIndex>, s: Shape): (r: Option<seq<Pick>>)
    requires |ps| == |s|
    ensures r.Some? ==> PicksOk(r.value, s)
    ensures r.Some? <==> forall k :: 0 <= k < |s| ==> Resolve(ps[k], s[k]).Some?
    ensures r.Some? ==> forall k :: 0 <= k < |s| ==> Some(r.value[k]) == Resolve(ps[k], s[k])
  {
    if ps == [] then Some([])
    else
      var p := Resolve(ps[0], s[0]);
      var rest := ResolveAll(ps[1..], s[1..]);
      if p.Some? && rest.Some? then Some([p.value] + rest.value) else None
  }

  function Padded(ps: seq<PyIndex>, n: nat): (r: seq<PyIndex>)
    ensures |ps| <= n ==> |r| == n
    ensures |ps| >= n ==> r == ps
    ensures forall k :: 0 <= k < |r| ==> r[k] == if k < |ps| then ps[k] else FULL
  {
    if |ps| < n then ps + seq(n - |ps|, _ => FULL) else ps
  }

  /** torch's basic indexing with a tuple of ints and slices. */
  function TorchIndex(t: Tensor, ps: seq<PyIndex>): Result<Tensor> {
    if |ps| > |t.shape| then Failure
    else
      var r := ResolveAll(Padded(ps, |t.shape|), t.shape);
      if r.None? then Failure else Success(PickT(t, r.value))
  }

  // ---------- narrow and concatenate ----------

  function FullPicks(s: Shape): (r: seq<Pick>)
    ensures |r| == |s| && PicksOk(r, s)
    ensures forall k :: 0 <= k < |s| ==> r[k] == Range(0, s[k], 1)
  {
    seq(|s|, k requires 0 <= k < |s| => Range(0, s[k], 1))
  }

  /** The slab of `t` with positions lo..lo+len on axis d. */
  function Narrow(t: Tensor, d: nat, lo: nat, len: nat): Tensor
    requires d < |t.shape| && lo + len <= t.shape[d]
  {
    PickT(t, FullPicks(t.shape)[d := Range(lo, len, 1)])
  }

  /** Two tensors can be joined along axis d when they agree on every other axis. */
  predicate Joinable(a: Tensor, b: Tensor, d: nat) {
    d < |a.shape| == |b.shape| && forall k :: 0 <= k < |a.shape| && k != d ==> a.shape[k] == b.shape[k]
  }

  predicate InFirst(i: Index, d: nat, n: nat) requires d < |i| { i[d] < n }

  function Shifted(i: Index, d: nat, n: nat): Index
    requires d < |i| && !InFirst(i, d, n)
  {
    i[d := i[d] - n]
  }

  function JoinEntry(a: Tensor, b: Tensor, d: nat, i: Index): int
    requires Joinable(a, b, d) && InBounds(i, JoinedShape(a, b, d))
  {
    if InFirst(i, d, a.shape[d]) then InBoth(a, b, d, i); At(a, i)
    else InBoth(a, b, d, i); At(b, Shifted(i, d, a.shape[d]))
  }

  function JoinedShape(a: Tensor, b: Tensor, d: nat): Shape
    requires Joinable(a, b, d)
  {
    a.shape[d := a.shape[d] + b.shape[d]]
  }

  lemma InBoth(a: Tensor, b: Tensor, d: nat, i: Index)
    requires Joinable(a, b, d) && InBounds(i, JoinedShape(a, b, d))
    ensures if InFirst(i, d, a.shape[d]) then InBounds(i, a.shape) else InBounds(Shifted(i, d, a.shape[d]), b.shape)
  {
    var s := JoinedShape(a, b, d);
    assert forall k :: 0 <= k < |s| ==> i[k] < s[k];
  }

  function Join(a: Tensor, b: Tensor, d: nat): (r: Tensor)
    requires Joinable(a, b, d)
    ensures r.shape == JoinedShape(a, b, d)
  {
    Tabulate(JoinedShape(a, b, d), i requires InBounds(i, JoinedShape(a, b, d)) => JoinEntry(a, b, d, i))
  }

  lemma JoinAt(a: Tensor, b: Tensor, d: nat, i: Index)
    requires Joinable(a, b, d) && InBounds(i, JoinedShape(a, b, d))
    ensures At(Join(a, b, d), i) == JoinEntry(a, b, d, i)
  {
    TabulateAt(JoinedShape(a, b, d), i requires InBounds(i, JoinedShape(a, b, d)) => JoinEntry(a, b, d, i), i);
  }

  predicate AllJoinable(ts: seq<Tensor>, d: nat) {
    && |ts| > 0
    && d < |ts[0].shape|
    && forall k :: 0 <= k < |ts| ==> Joinable(ts[0], ts[k], d)
  }

  function JoinAll(ts: seq<Tensor>, d: nat): (r: Tensor)
    requires AllJoinable(ts, d)
    ensures Joinable(ts[0], r, d)
  {
    if |ts| == 1 then ts[0]
    else
      assert forall k :: 0 <= k < |ts[1..]| ==> ts[1..][k] == ts[k + 1];
      assert Joinable(ts[0], ts[1], d);
      Join(ts[0], JoinAll(ts[1..], d), d)
  }

  /** torch.cat */
  function TorchCat(ts: seq<Tensor>, d: nat): Result<Tensor> {
    if AllJoinable(ts, d) then Success(JoinAll(ts, d)) else Failure
  }
}
