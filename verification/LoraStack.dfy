/** Stacking factored tensors along a new first axis. */
module LoraStack {
  import opened Wrappers
  import opened Tensors
  import opened LoraTensor
  import opened LoraIndexing
  import opened LoraSplit

  // ---------- torch.stack along axis 0 ----------

  predicate Stackable(ts: seq<Tensor>) {
    ts != [] && forall k :: 0 <= k < |ts| ==> ts[k].shape == ts[0].shape
  }

  function StackedShape(ts: seq<Tensor>): (s: Shape)
    requires Stackable(ts)
    ensures |s| == |ts[0].shape| + 1
  {
    [|ts|] + ts[0].shape
  }

  lemma StackedIndex(ts: seq<Tensor>, i: Index)
    requires Stackable(ts) && InBounds(i, StackedShape(ts))
    ensures i[0] < |ts| && InBounds(i[1..], ts[i[0]].shape) && i == [i[0]] + i[1..]
  {
    var s := StackedShape(ts);
    forall k | 0 <= k < |s| - 1 ensures i[1..][k] < ts[0].shape[k] { assert i[k + 1] < s[k + 1]; }
  }

  function StackEntry(ts: seq<Tensor>, i: Index): int
    requires Stackable(ts) && InBounds(i, StackedShape(ts))
  {
    StackedIndex(ts, i);
    At(ts[i[0]], i[1..])
  }

  function TorchStack(ts: seq<Tensor>): (r: Result<Tensor>)
    ensures r.Success? <==> Stackable(ts)
    ensures r.Success? ==> r.value.shape == StackedShape(ts)
  {
    if Stackable(ts) then
      Success(Tabulate(StackedShape(ts), i requires InBounds(i, StackedShape(ts)) => StackEntry(ts, i)))
    else Failure
  }

  lemma StackAt(ts: seq<Tensor>, t: nat, i: Index)
    requires Stackable(ts) && t < |ts| && InBounds(i, ts[t].shape)
    ensures InBounds([t] + i, StackedShape(ts)) && At(TorchStack(ts).value, [t] + i) == At(ts[t], i)
  {
    var s := StackedShape(ts);
    assert ts[t].shape == ts[0].shape;
    forall k | 0 <= k < |s| ensures ([t] + i)[k] < s[k] { if k > 0 { assert i[k - 1] < ts[0].shape[k - 1]; } }
    TabulateAt(s, j requires InBounds(j, s) => StackEntry(ts, j), [t] + i);
    assert ([t] + i)[1..] == i;
  }

  // ---------- stacking the factors ----------

  function Stack(ls: seq<Lora>): Result<Lora> {
    var a, b := TorchStack(FactorsA(ls)), TorchStack(FactorsB(ls));
    if a.Failure? || b.Failure? then Failure else Make(a.value, b.value)
  }

  lemma StackMakes(ls: seq<Lora>)
    ensures Stack(ls).Success? <==> Stackable(FactorsA(ls)) && Stackable(FactorsB(ls))
    ensures Stack(ls).Success? ==> var r := Stack(ls).value;
      && r.A == TorchStack(FactorsA(ls)).value && r.B == TorchStack(FactorsB(ls)).value
      && Rank(r) == Rank(ls[0]) && LeadA(r) == [|ls|] + LeadA(ls[0]) && ShapeOf(r) == [|ls|] + ShapeOf(ls[0])
  {
    hide TorchStack;
    if Stackable(FactorsA(ls)) && Stackable(FactorsB(ls)) {
      var a, b := TorchStack(FactorsA(ls)).value, TorchStack(FactorsB(ls)).value;
      assert FactorsAgree(ls[0].A, ls[0].B);
      assert FactorsAgree(a, b);
    }
  }

  lemma SameShapes(ls: seq<Lora>, t: nat)
    requires Stackable(FactorsA(ls)) && Stackable(FactorsB(ls)) && t < |ls|
    ensures ls[t].A.shape == ls[0].A.shape && ls[t].B.shape == ls[0].B.shape
  {
    assert FactorsA(ls)[t].shape == FactorsA(ls)[0].shape && FactorsB(ls)[t].shape == FactorsB(ls)[0].shape;
  }

  lemma StackTerm(ls: seq<Lora>, t: nat, i: Index, k: nat)
    requires Stack(ls).Success? && t < |ls| && Broadcasts(ls[t]) && Broadcasts(Stack(ls).value)
    requires InBounds(i, ShapeOf(ls[t])) && InBounds([t] + i, ShapeOf(Stack(ls).value)) && k < Rank(ls[t])
    ensures k < Rank(Stack(ls).value) && Term(Stack(ls).value, [t] + i, k) == Term(ls[t], i, k)
  {
    hide TorchStack, At, Stretch;
    StackMakes(ls);
    SameShapes(ls, t);
    var r, n := Stack(ls).value, |i|;
    FactorIndices(ls[t], i, k);
    StackAt(FactorsB(ls), t, IndexB(i, k));
    StackAt(FactorsA(ls), t, IndexA(i, LeadA(ls[t]), k));
    assert ([t] + i)[..n] == [t] + i[..n - 1];
    assert IndexB([t] + i, k) == [t] + IndexB(i, k);
    assert ([t] + i)[..n - 1] == [t] + i[..n - 2];
    StretchCons(t, i[..n - 2], |ls|, LeadA(ls[0]));
    assert IndexA([t] + i, LeadA(r), k) == [t] + IndexA(i, LeadA(ls[t]), k);
  }

  lemma StackBroadcasts(ls: seq<Lora>)
    requires Stack(ls).Success? && Broadcasts(ls[0])
    ensures Broadcasts(Stack(ls).value)
  {
    hide TorchStack;
    StackMakes(ls);
    var r := Stack(ls).value;
    forall k | 0 <= k < Dims(r) - 2 ensures r.A.shape[k] == 1 || r.A.shape[k] == r.B.shape[k] {
      if k > 0 { assert r.A.shape[k] == ls[0].A.shape[k - 1] && r.B.shape[k] == ls[0].B.shape[k - 1]; }
    }
  }

  lemma StackEntries(ls: seq<Lora>, i: Index)
    requires Stack(ls).Success? && (forall k :: 0 <= k < |ls| ==> Broadcasts(ls[k]))
    requires Stackable(Denses(ls)) && Broadcasts(Stack(ls).value) && InBounds(i, ShapeOf(Stack(ls).value))
    ensures InBounds(i, StackedShape(Denses(ls)))
    ensures At(Dense(Stack(ls).value), i) == At(TorchStack(Denses(ls)).value, i)
  {
    hide TorchStack, Dense, At, Stack, Term;
    StackMakes(ls);
    var r, ws := Stack(ls).value, Denses(ls);
    assert StackedShape(ws) == ShapeOf(r);
    StackedIndex(ws, i);
    var t, j := i[0], i[1..];
    SameShapes(ls, t);
    StackAt(ws, t, j);
    DenseAt(r, i);
    DenseAt(ls[t], j);
    forall k: nat | k < Rank(r) ensures Term(r, i, k) == Term(ls[t], j, k) { StackTerm(ls, t, j, k); }
    ContractEqual(r, i, ls[t], j, Rank(r));
  }

  /** When the factors can be stacked, the result stands for the stack of the products. */
  lemma StackMeaning(ls: seq<Lora>)
    requires forall k :: 0 <= k < |ls| ==> Broadcasts(ls[k])
    ensures Stack(ls).Success? <==> Stackable(FactorsA(ls)) && Stackable(FactorsB(ls))
    ensures Stack(ls).Success? ==> Broadcasts(Stack(ls).value) && TorchStack(Denses(ls)) == Success(Dense(Stack(ls).value))
  {
    hide TorchStack, Dense, At, Stack, Term, Contract, FactorsAgree;
    StackMakes(ls);
    if Stack(ls).Success? {
      var r, ws := Stack(ls).value, Denses(ls);
      StackBroadcasts(ls);
      forall k | 0 <= k < |ws| ensures ws[k].shape == ws[0].shape { SameShapes(ls, k); }
      assert StackedShape(ws) == ShapeOf(r);
      forall i | InBounds(i, Dense(r).shape) ensures At(Dense(r), i) == At(TorchStack(ws).value, i) { StackEntries(ls, i); }
      Extensional(Dense(r), TorchStack(ws).value);
    }
  }
}
