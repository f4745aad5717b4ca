/** Tool results are put in the order of the calls they answer, inside each run of user and tool
    messages. */
module ToolResultOrder {
  import opened StableOrder

  datatype Role = USER | ASSISTANT | TOOL | OTHER

  /** `callIds` are the ids of the tool calls, empty without tool calls; an absent id is "". */
  datatype Msg = Msg(role: Role, callIds: seq<string>, toolCallId: string, payload: string)

  type Order = map<string, nat>

  // ---------- the order of the calls ----------

  /** Position of each id in the call list; the last one counts, empty ids do not. */
  function OrderOf(ids: seq<string>): Order
    decreases |ids|
  {
    if ids == [] then map[]
    else
      var m, n := OrderOf(ids[..|ids| - 1]), |ids| - 1;
      if ids[n] != "" then m[ids[n] := n] else m
  }

  lemma {:induction false} OrderOfMeaning(ids: seq<string>, id: string)
    ensures id in OrderOf(ids) <==> id != "" && id in ids
    ensures id in OrderOf(ids) ==> var k := OrderOf(ids)[id];
      k < |ids| && ids[k] == id && forall j :: k < j < |ids| ==> ids[j] != id
    decreases |ids|
  {
    if ids != [] {
      var n := |ids| - 1;
      OrderOfMeaning(ids[..n], id);
      assert ids == ids[..n] + [ids[n]];
      if id in OrderOf(ids) && ids[n] != id {
        var k := OrderOf(ids)[id];
        forall j | k < j < |ids| ensures ids[j] != id { if j < n { assert ids[..n][j] == ids[j]; } }
      }
    }
  }

  /** Rank of a tool result; an unknown id ranks with the first call. */
  function Rank(order: Order): (r: Msg -> int) {
    (m: Msg) => if m.toolCallId in order then order[m.toolCallId] else 0
  }

  predicate Calls(m: Msg) { m.role == ASSISTANT && m.callIds != [] }

  predicate InRun(m: Msg) { m.role == USER || m.role == TOOL }

  function OrderAfterFirst(m: Msg, order: Order): Order {
    if Calls(m) then OrderOf(m.callIds) else order
  }

  /** The order in force after these messages: that of the last assistant message with calls. */
  function OrderAfter(ms: seq<Msg>, order: Order): Order
    decreases |ms|
  {
    if ms == [] then order else OrderAfter(ms[1..], OrderAfterFirst(ms[0], order))
  }

  // ---------- one run ----------

  function Positions(run: seq<Msg>): seq<nat>
    decreases |run|
  {
    if run == [] then []
    else
      var n := |run| - 1;
      Positions(run[..n]) + if run[n].role == TOOL then [n] else []
  }

  function Tools(run: seq<Msg>): seq<Msg>
    decreases |run|
  {
    if run == [] then []
    else
      var n := |run| - 1;
      Tools(run[..n]) + if run[n].role == TOOL then [run[n]] else []
  }

  /** The positions are increasing and are exactly those of the tool messages. */
  lemma {:induction false} PositionsMeaning(run: seq<Msg>)
    ensures var p := Positions(run);
      && |p| == |Tools(run)|
      && (forall j :: 0 <= j < |p| ==> p[j] < |run| && run[p[j]].role == TOOL && Tools(run)[j] == run[p[j]])
      && (forall i, j :: 0 <= i < j < |p| ==> p[i] < p[j])
    decreases |run|
  {
    if run != [] {
      var n := |run| - 1;
      var p := Positions(run[..n]);
      PositionsMeaning(run[..n]);
      forall j | 0 <= j < |p| ensures p[j] < n && run[p[j]] == run[..n][p[j]] {}
    }
  }

  lemma {:induction false} AllPositions(run: seq<Msg>, x: nat)
    requires x < |run| && run[x].role == TOOL
    ensures x in Positions(run)
    decreases |run|
  {
    var n := |run| - 1;
    if x < n { AllPositions(run[..n], x); }
  }

  /** The run with its tool messages replaced, one by one. */
  function Place(run: seq<Msg>, results: seq<Msg>): (r: seq<Msg>)
    requires |results| == |Tools(run)|
    ensures |r| == |run|
    decreases |run|
  {
    if run == [] then []
    else
      var n, m := |run| - 1, |results| - 1;
      if run[n].role == TOOL then Place(run[..n], results[..m]) + [results[m]]
      else Place(run[..n], results) + [run[n]]
  }

  function AdjustRun(run: seq<Msg>, order: Order): (r: seq<Msg>)
    ensures |r| == |run|
  {
    Place(run, StableSort(Tools(run), Rank(order)))
  }

  lemma ToolsSnoc(run: seq<Msg>, m: Msg)
    ensures Tools(run + [m]) == Tools(run) + if m.role == TOOL then [m] else []
  {
    assert (run + [m])[..|run|] == run;
  }

  lemma {:induction false} PlaceAtTool(run: seq<Msg>, results: seq<Msg>, j: nat)
    requires |results| == |Tools(run)| == |Positions(run)| && j < |results|
    ensures Positions(run)[j] < |run| && Place(run, results)[Positions(run)[j]] == results[j]
    decreases |run|
  {
    PositionsMeaning(run);
    var n, m := |run| - 1, |results| - 1;
    PositionsMeaning(run[..n]);
    if run[n].role == TOOL {
      if j < m { PlaceAtTool(run[..n], results[..m], j); }
    } else {
      PlaceAtTool(run[..n], results, j);
    }
  }

  lemma {:induction false} PlaceAtOther(run: seq<Msg>, results: seq<Msg>, k: nat)
    requires |results| == |Tools(run)| && k < |run|
    ensures if run[k].role == TOOL then k in Positions(run) else Place(run, results)[k] == run[k]
    decreases |run|
  {
    var n, m := |run| - 1, |results| - 1;
    if k < n {
      PlaceAtOther(run[..n], if run[n].role == TOOL then results[..m] else results, k);
    }
  }

  predicate AllTools(ms: seq<Msg>) {
    forall k :: 0 <= k < |ms| ==> ms[k].role == TOOL
  }

  predicate SameRoles(a: seq<Msg>, b: seq<Msg>) {
    |a| == |b| && forall k :: 0 <= k < |a| ==> a[k].role == b[k].role
  }

  /** Replacing tool messages by tool messages changes no role, and the new ones are then the tool
      messages. */
  lemma {:induction false} PlaceTools(run: seq<Msg>, results: seq<Msg>)
    requires |results| == |Tools(run)| && AllTools(results)
    ensures SameRoles(run, Place(run, results)) && Tools(Place(run, results)) == results
    decreases |run|
  {
    if run != [] {
      hide Place, Tools, SameRoles;
      PlaceStep(run, results);
      var n, m := |run| - 1, |results| - 1;
      if run[n].role == TOOL {
        var p := Place(run[..n], results[..m]);
        PlaceTools(run[..n], results[..m]);
        ToolsSnoc(p, results[m]);
        SameRolesSnoc(run, p, results[m]);
      } else {
        var p := Place(run[..n], results);
        PlaceTools(run[..n], results);
        ToolsSnoc(p, run[n]);
        SameRolesSnoc(run, p, run[n]);
      }
    }
  }

  /** The last message, and the messages before it. */
  lemma PlaceStep(run: seq<Msg>, results: seq<Msg>)
    requires run != [] && |results| == |Tools(run)|
    ensures var n, m := |run| - 1, |results| - 1;
      if run[n].role == TOOL then
        && results != [] && |Tools(run[..n])| == m && Tools(run) == Tools(run[..n]) + [run[n]]
        && Place(run, results) == Place(run[..n], results[..m]) + [results[m]]
        && run == run[..n] + [run[n]] && results == results[..m] + [results[m]]
      else
        && Tools(run) == Tools(run[..n]) && Place(run, results) == Place(run[..n], results) + [run[n]]
        && run == run[..n] + [run[n]]
  {
    hide Tools;
    ToolsStep(run);
    if run[|run| - 1].role == TOOL { LastSplit(results); }
  }

  lemma LastSplit(s: seq<Msg>)
    requires s != []
    ensures s == s[..|s| - 1] + [s[|s| - 1]]
  {}

  lemma ToolsStep(run: seq<Msg>)
    requires run != []
    ensures var n := |run| - 1;
      && run == run[..n] + [run[n]]
      && Tools(run) == if run[n].role == TOOL then Tools(run[..n]) + [run[n]] else Tools(run[..n])
  {
    LastSplit(run);
    var n := |run| - 1;
    assert Tools(run[..n]) + [] == Tools(run[..n]);
  }

  lemma SameRolesSnoc(run: seq<Msg>, p: seq<Msg>, last: Msg)
    requires run != [] && SameRoles(run[..|run| - 1], p) && last.role == run[|run| - 1].role
    ensures SameRoles(run, p + [last])
  {
    forall k | 0 <= k < |run| ensures run[k].role == (p + [last])[k].role {
      if k < |p| { assert run[..|run| - 1][k].role == p[k].role; }
    }
  }

  lemma MultisetSnoc(s: seq<Msg>, x: Msg)
    ensures multiset(s + [x]) == multiset(s) + multiset{x}
  {}

  lemma AddOne(p: multiset<Msg>, t: multiset<Msg>, r: multiset<Msg>, s: multiset<Msg>, x: Msg, y: Msg)
    requires p + t == r + s
    ensures (p + multiset{x}) + t == (r + multiset{x}) + s
    ensures (p + multiset{y}) + (t + multiset{x}) == (r + multiset{x}) + (s + multiset{y})
  {
    assert (p + multiset{x}) + t == (p + t) + multiset{x};
    assert (p + multiset{y}) + (t + multiset{x}) == (p + t) + multiset{x} + multiset{y};
  }

  lemma {:induction false} PlaceMultiset(run: seq<Msg>, results: seq<Msg>)
    requires |results| == |Tools(run)|
    ensures multiset(Place(run, results)) + multiset(Tools(run)) == multiset(run) + multiset(results)
    decreases |run|
  {
    if run != [] {
      hide Place, Tools;
      PlaceStep(run, results);
      var n, m := |run| - 1, |results| - 1;
      MultisetSnoc(run[..n], run[n]);
      if run[n].role == TOOL {
        PlaceMultiset(run[..n], results[..m]);
        MultisetSnoc(results[..m], results[m]);
        MultisetSnoc(Place(run[..n], results[..m]), results[m]);
        MultisetSnoc(Tools(run[..n]), run[n]);
        AddOne(multiset(Place(run[..n], results[..m])), multiset(Tools(run[..n])), multiset(run[..n]),
               multiset(results[..m]), run[n], results[m]);
      } else {
        PlaceMultiset(run[..n], results);
        MultisetSnoc(Place(run[..n], results), run[n]);
        AddOne(multiset(Place(run[..n], results)), multiset(Tools(run)), multiset(run[..n]), multiset(results), run[n], run[n]);
      }
    }
  }

  lemma {:induction false} PlaceAgain(run: seq<Msg>, a: seq<Msg>, b: seq<Msg>)
    requires |a| == |Tools(run)| == |b| && AllTools(a)
    ensures |Tools(Place(run, a))| == |b| && Place(Place(run, a), b) == Place(run, b)
    decreases |run|
  {
    hide Place, Tools;
    PlaceTools(run, a);
    if run == [] {
      PlaceNothing(a, b);
    } else {
      var n, m := |run| - 1, |a| - 1;
      var r := Place(run, a);
      PlaceStep(run, a);
      PlaceStep(run, b);
      PlaceStep(r, b);
      if run[n].role == TOOL {
        PlaceAgain(run[..n], a[..m], b[..m]);
        assert r[..n] == Place(run[..n], a[..m]);
      } else {
        PlaceAgain(run[..n], a, b);
        assert r[..n] == Place(run[..n], a);
      }
    }
  }

  lemma PlaceNothing(a: seq<Msg>, b: seq<Msg>)
    requires |a| == |b| == |Tools([])|
    ensures a == [] && b == [] && Place([], a) == [] && Place([], b) == [] && Tools([]) == []
  {}

  // ---------- the whole conversation ----------

  /** How many leading messages form one run. */
  function RunLength(ms: seq<Msg>): (n: nat)
    ensures n <= |ms| && (forall k :: 0 <= k < n ==> InRun(ms[k])) && (n < |ms| ==> !InRun(ms[n]))
  {
    if ms == [] || !InRun(ms[0]) then 0 else 1 + RunLength(ms[1..])
  }

  function Adjust(ms: seq<Msg>, order: Order): (r: seq<Msg>)
    ensures |r| == |ms|
    decreases |ms|
  {
    if ms == [] then []
    else if !InRun(ms[0]) then [ms[0]] + Adjust(ms[1..], OrderAfterFirst(ms[0], order))
    else
      var n := RunLength(ms);
      AdjustRun(ms[..n], order) + Adjust(ms[n..], order)
  }

  /** Inside a run: same roles, same messages, other messages in place, results sorted stably. */
  lemma RunAdjusted(run: seq<Msg>, order: Order)
    ensures var r := AdjustRun(run, order);
      && SameRoles(run, r) && multiset(r) == multiset(run)
      && Tools(r) == StableSort(Tools(run), Rank(order))
      && forall k :: 0 <= k < |run| && run[k].role != TOOL ==> r[k] == run[k]
  {
    hide Place, Tools;
    var t := Tools(run);
    var s := StableSort(t, Rank(order));
    AllAreTools(run);
    SameElements(t, s);
    PlaceTools(run, s);
    PlaceMultiset(run, s);
    assert multiset(AdjustRun(run, order)) == multiset(run) by {
      Cancel(multiset(AdjustRun(run, order)), multiset(run), multiset(t));
    }
    forall k | 0 <= k < |run| && run[k].role != TOOL ensures AdjustRun(run, order)[k] == run[k] { PlaceAtOther(run, s, k); }
  }

  lemma Cancel(a: multiset<Msg>, b: multiset<Msg>, c: multiset<Msg>)
    requires a + c == b + c
    ensures a == b
  {
    assert a == (a + c) - c && b == (b + c) - c;
  }

  lemma {:induction false} AllAreTools(run: seq<Msg>)
    ensures AllTools(Tools(run))
    decreases |run|
  {
    if run != [] { AllAreTools(run[..|run| - 1]); }
  }

  lemma SameElements(t: seq<Msg>, s: seq<Msg>)
    requires AllTools(t) && multiset(t) == multiset(s)
    ensures AllTools(s)
  {
    forall k | 0 <= k < |s| ensures s[k].role == TOOL {
      assert s[k] in multiset(s);
      assert s[k] in t;
    }
  }

  /** The messages are permuted; roles stay in place, and so does everything but tool results. */
  lemma {:induction false} OnlyResultsMove(ms: seq<Msg>, order: Order)
    ensures var r := Adjust(ms, order);
      && multiset(r) == multiset(ms) && SameRoles(ms, r)
      && forall k :: 0 <= k < |ms| && ms[k].role != TOOL ==> r[k] == ms[k]
    decreases |ms|
  {
    if ms != [] {
      hide Adjust, AdjustRun, OrderOf;
      if InRun(ms[0]) {
        var n := RunLength(ms);
        AdjustSplits(ms, order);
        OnlyResultsMove(ms[n..], order);
        RunAdjusted(ms[..n], order);
        Joined(ms[..n], ms[n..], AdjustRun(ms[..n], order), Adjust(ms[n..], order));
      } else {
        AdjustSkips(ms, order);
        var o := OrderAfterFirst(ms[0], order);
        OnlyResultsMove(ms[1..], o);
        Joined([ms[0]], ms[1..], [ms[0]], Adjust(ms[1..], o));
      }
    }
  }

  lemma AdjustSplits(ms: seq<Msg>, order: Order)
    requires ms != [] && InRun(ms[0])
    ensures var n := RunLength(ms);
      Adjust(ms, order) == AdjustRun(ms[..n], order) + Adjust(ms[n..], order) && ms == ms[..n] + ms[n..]
  {
    hide AdjustRun, OrderAfterFirst;
  }

  lemma AdjustSkips(ms: seq<Msg>, order: Order)
    requires ms != [] && !InRun(ms[0])
    ensures Adjust(ms, order) == [ms[0]] + Adjust(ms[1..], OrderAfterFirst(ms[0], order)) && ms == [ms[0]] + ms[1..]
  {}

  lemma Joined(a: seq<Msg>, b: seq<Msg>, x: seq<Msg>, y: seq<Msg>)
    requires SameRoles(a, x) && SameRoles(b, y) && multiset(a) == multiset(x) && multiset(b) == multiset(y)
    requires forall k :: 0 <= k < |a| && a[k].role != TOOL ==> x[k] == a[k]
    requires forall k :: 0 <= k < |b| && b[k].role != TOOL ==> y[k] == b[k]
    ensures SameRoles(a + b, x + y) && multiset(a + b) == multiset(x + y)
    ensures forall k :: 0 <= k < |a + b| && (a + b)[k].role != TOOL ==> (x + y)[k] == (a + b)[k]
  {}

  /** ms[a..b] is a maximal run of user and tool messages. */
  predicate IsRun(ms: seq<Msg>, a: nat, b: nat) {
    && a < b <= |ms|
    && (forall k :: a <= k < b ==> InRun(ms[k]))
    && (a > 0 ==> !InRun(ms[a - 1])) && (b < |ms| ==> !InRun(ms[b]))
  }

  /** Every maximal run is adjusted by itself, with the calls of the latest assistant message before
      it that has any. */
  lemma {:induction false} RunsAreAdjusted(ms: seq<Msg>, order: Order, a: nat, b: nat)
    requires IsRun(ms, a, b)
    ensures Adjust(ms, order)[a..b] == AdjustRun(ms[a..b], OrderAfter(ms[..a], order))
    decreases |ms|
  {
    hide Adjust, AdjustRun, OrderOf, OrderAfter, OrderAfterFirst, IsRun, InRun, RunLength;
    RunBounds(ms, a, b);
    if a == 0 {
      AdjustSplits(ms, order);
      OrderOfNothing(ms, order);
      SlicedFirst(AdjustRun(ms[..b], order), Adjust(ms[b..], order));
      assert ms[0..b] == ms[..b];
    } else if InRun(ms[0]) {
      var n := RunLength(ms);
      AdjustSplits(ms, order);
      LaterRun(ms, n, a, b);
      SameSlices(ms, n, a, b);
      OrderSkips(ms[..a], n, order);
      OrderNotChanged(ms[0], order);
      RunsAreAdjusted(ms[n..], order, a - n, b - n);
      ShiftedRun(ms, order, AdjustRun(ms[..n], order), order, a, b);
    } else {
      AdjustSkips(ms, order);
      LaterRun(ms, 1, a, b);
      SameSlices(ms, 1, a, b);
      OrderSkips(ms[..a], 1, order);
      RunsAreAdjusted(ms[1..], OrderAfterFirst(ms[0], order), a - 1, b - 1);
      ShiftedRun(ms, order, [ms[0]], OrderAfterFirst(ms[0], order), a, b);
    }
  }

  lemma ShiftedRun(ms: seq<Msg>, order: Order, first: seq<Msg>, o: Order, a: nat, b: nat)
    requires var n := |first|; n <= a <= b <= |ms| && Adjust(ms, order) == first + Adjust(ms[n..], o)
    requires var n := |first|;
      && OrderAfter(ms[..a], order) == OrderAfter(ms[..a][n..], o)
      && Adjust(ms[n..], o)[a - n..b - n] == AdjustRun(ms[n..][a - n..b - n], OrderAfter(ms[n..][..a - n], o))
    ensures Adjust(ms, order)[a..b] == AdjustRun(ms[a..b], OrderAfter(ms[..a], order))
  {
    hide Adjust, AdjustRun, OrderAfter;
    SameSlices(ms, |first|, a, b);
    SlicedSecond(first, Adjust(ms[|first|..], o), a, b);
  }

  lemma RunBounds(ms: seq<Msg>, a: nat, b: nat)
    requires IsRun(ms, a, b)
    ensures a < b <= |ms| && (a == 0 ==> InRun(ms[0]) && RunLength(ms) == b)
  {
    if a == 0 { RunLengthIs(ms, b); }
  }

  lemma OrderOfNothing(ms: seq<Msg>, order: Order)
    ensures OrderAfter(ms[..0], order) == order
  {}

  lemma OrderNotChanged(m: Msg, order: Order)
    requires InRun(m)
    ensures OrderAfterFirst(m, order) == order
  {}

  lemma SlicedFirst(x: seq<Msg>, y: seq<Msg>)
    ensures (x + y)[0..|x|] == x
  {}

  lemma SlicedSecond(x: seq<Msg>, y: seq<Msg>, a: nat, b: nat)
    requires |x| <= a <= b <= |x| + |y|
    ensures (x + y)[a..b] == y[a - |x|..b - |x|]
  {}

  /** A run that is not the first part is a run of the rest. */
  lemma LaterRun(ms: seq<Msg>, n: nat, a: nat, b: nat)
    requires IsRun(ms, a, b) && a > 0 && n == if InRun(ms[0]) then RunLength(ms) else 1
    ensures 0 < n <= a && IsRun(ms[n..], a - n, b - n)
    ensures n == 1 || forall k :: 0 <= k < n ==> InRun(ms[..a][k])
  {
    NotBeyond(ms, n, a, b);
    hide InRun, RunLength;
    var rest := ms[n..];
    forall k | a - n <= k < b - n ensures InRun(rest[k]) { assert rest[k] == ms[k + n]; }
    if a > n { assert rest[a - n - 1] == ms[a - 1]; }
    if b < |ms| { assert rest[b - n] == ms[b]; }
  }

  lemma NotBeyond(ms: seq<Msg>, n: nat, a: nat, b: nat)
    requires IsRun(ms, a, b) && a > 0 && n == if InRun(ms[0]) then RunLength(ms) else 1
    ensures 0 < n <= a && (n == 1 || forall k :: 0 <= k < n ==> InRun(ms[k]))
  {
    assert !InRun(ms[a - 1]);
  }

  lemma SameSlices(ms: seq<Msg>, n: nat, a: nat, b: nat)
    requires n <= a <= b <= |ms|
    ensures ms[n..][a - n..b - n] == ms[a..b] && ms[n..][..a - n] == ms[..a][n..]
    ensures 0 < a ==> ms[..a][0] == ms[0]
  {}

  lemma {:induction false} RunLengthIs(ms: seq<Msg>, b: nat)
    requires b <= |ms| && (forall k :: 0 <= k < b ==> InRun(ms[k])) && (b < |ms| ==> !InRun(ms[b]))
    ensures RunLength(ms) == b
    decreases |ms|
  {
    if b > 0 { RunLengthIs(ms[1..], b - 1); }
  }

  /** Messages of a run do not change the order in force. */
  lemma {:induction false} OrderSkips(ms: seq<Msg>, n: nat, order: Order)
    requires 0 < n <= |ms| && (n == 1 || forall k :: 0 <= k < n ==> InRun(ms[k]))
    ensures OrderAfter(ms, order) == OrderAfter(ms[n..], OrderAfterFirst(ms[0], order))
    decreases n
  {
    hide OrderOf;
    if n > 1 {
      OrderSkips(ms[1..], n - 1, order);
      assert ms[1..][n - 1..] == ms[n..] && InRun(ms[0]) && InRun(ms[1]);
    }
  }

  /** Adjusting again changes nothing. */
  lemma {:induction false} AdjustIdempotent(ms: seq<Msg>, order: Order)
    ensures Adjust(Adjust(ms, order), order) == Adjust(ms, order)
    decreases |ms|
  {
    if ms != [] {
      hide AdjustRun, OrderOf;
      var o := OrderAfterFirst(ms[0], order);
      if !InRun(ms[0]) {
        AdjustIdempotent(ms[1..], o);
        assert Adjust(ms, order)[1..] == Adjust(ms[1..], o);
      } else {
        var n := RunLength(ms);
        var r, t := AdjustRun(ms[..n], order), Adjust(ms[n..], order);
        AdjustIdempotent(ms[n..], order);
        OnlyResultsMove(ms[n..], order);
        RunAdjusted(ms[..n], order);
        RunIdempotent(ms[..n], order);
        hide Adjust;
        RunThenRest(ms, r, t);
        AdjustJoined(r, t, order);
        assert Adjust(ms, order) == r + t by { AdjustSplits(ms, order); }
      }
    }
  }

  lemma RunThenRest(ms: seq<Msg>, r: seq<Msg>, t: seq<Msg>)
    requires ms != [] && InRun(ms[0]) && SameRoles(ms[..RunLength(ms)], r) && SameRoles(ms[RunLength(ms)..], t)
    ensures r + t != [] && InRun((r + t)[0]) && RunLength(r + t) == |r|
  {
    var n := RunLength(ms);
    forall k | 0 <= k < n ensures InRun((r + t)[k]) { assert ms[..n][k].role == r[k].role; }
    if n < |ms| { assert ms[n..][0].role == t[0].role; }
    RunLengthIs(r + t, n);
  }

  lemma AdjustJoined(r: seq<Msg>, t: seq<Msg>, order: Order)
    requires r + t != [] && InRun((r + t)[0]) && RunLength(r + t) == |r|
    ensures Adjust(r + t, order) == AdjustRun(r, order) + Adjust(t, order)
  {
    hide Adjust, AdjustRun;
    AdjustSplits(r + t, order);
    assert (r + t)[..|r|] == r && (r + t)[|r|..] == t;
  }

  lemma RunIdempotent(run: seq<Msg>, order: Order)
    ensures AdjustRun(AdjustRun(run, order), order) == AdjustRun(run, order)
  {
    hide Place, Tools;
    var s := StableSort(Tools(run), Rank(order));
    AllAreTools(run);
    SameElements(Tools(run), s);
    PlaceTools(run, s);
    SortMeaning(Tools(run), Rank(order), 0);
    SortOfSorted(s, Rank(order));
    PlaceAgain(run, s, s);
  }

  /** The order in force is that of the latest assistant message with calls. */
  lemma {:induction false} LatestCalls(ms: seq<Msg>, order: Order, j: nat)
    requires j < |ms| && Calls(ms[j]) && forall k :: j < k < |ms| ==> !Calls(ms[k])
    ensures OrderAfter(ms, order) == OrderOf(ms[j].callIds)
    decreases |ms|
  {
    hide OrderOf;
    if j > 0 {
      LatestCalls(ms[1..], OrderAfterFirst(ms[0], order), j - 1);
    } else {
      NoCalls(ms[1..], OrderOf(ms[0].callIds));
    }
  }

  lemma {:induction false} NoCalls(ms: seq<Msg>, order: Order)
    requires forall k :: 0 <= k < |ms| ==> !Calls(ms[k])
    ensures OrderAfter(ms, order) == order
    decreases |ms|
  {
    if ms != [] { NoCalls(ms[1..], order); }
  }

  /** The calls of the latest assistant message with calls among the first a messages. */
  predicate LatestIds(ms: seq<Msg>, a: nat, ids: seq<string>)
    requires a <= |ms|
  {
    if a == 0 then ids == []
    else if ms[a - 1].role == ASSISTANT && ms[a - 1].callIds != [] then ids == ms[a - 1].callIds
    else LatestIds(ms, a - 1, ids)
  }

  /** The position of the last call with this id; that of the first call when there is none or the id is empty. */
  function CallIndex(ids: seq<string>, id: string): nat
    decreases |ids|
  {
    if ids == [] then 0
    else if id != "" && ids[|ids| - 1] == id then |ids| - 1
    else CallIndex(ids[..|ids| - 1], id)
  }

  function ByCall(ids: seq<string>): Msg -> int {
    (m: Msg) => CallIndex(ids, m.toolCallId)
  }

  lemma {:induction false} RankIsCallIndex(ids: seq<string>, m: Msg)
    ensures Rank(OrderOf(ids))(m) == CallIndex(ids, m.toolCallId)
    decreases |ids|
  {
    if ids != [] { RankIsCallIndex(ids[..|ids| - 1], m); }
  }

  lemma {:induction false} OrderOfLatest(ms: seq<Msg>, a: nat, ids: seq<string>)
    requires a <= |ms| && LatestIds(ms, a, ids)
    ensures OrderAfter(ms[..a], map[]) == OrderOf(ids)
    decreases a
  {
    if a > 0 {
      hide OrderOf, OrderAfter;
      assert ms[..a][..a - 1] == ms[..a - 1] && ms[..a][a - 1] == ms[a - 1];
      if Calls(ms[a - 1]) {
        LatestCalls(ms[..a], map[], a - 1);
      } else {
        OrderOfLatest(ms, a - 1, ids);
        assert ms[..a] == ms[..a - 1] + [ms[a - 1]];
        OrderKept(ms[..a - 1], ms[a - 1], map[]);
      }
    } else {
      assert ms[..0] == [];
    }
  }

  lemma {:induction false} OrderKept(ms: seq<Msg>, m: Msg, order: Order)
    requires !Calls(m)
    ensures OrderAfter(ms + [m], order) == OrderAfter(ms, order)
    decreases |ms|
  {
    hide OrderOf;
    if ms == [] {
      assert [] + [m] == [m] && [m][1..] == [];
    } else {
      assert (ms + [m])[1..] == ms[1..] + [m];
      OrderKept(ms[1..], m, OrderAfterFirst(ms[0], order));
    }
  }

  lemma {:induction false} OfSameRank(s: seq<Msg>, f: Msg -> int, g: Msg -> int, k: int)
    requires forall m :: f(m) == g(m)
    ensures OfRank(s, f, k) == OfRank(s, g, k)
    decreases |s|
  {
    if s != [] { OfSameRank(s[..|s| - 1], f, g, k); }
  }

  /** In every maximal run: the same messages, and the tool results in the order of the calls of the latest assistant
      message before it that has any, ties in their original order. */
  lemma ResultsFollowCalls(ms: seq<Msg>, a: nat, b: nat, ids: seq<string>, k: int)
    requires IsRun(ms, a, b) && LatestIds(ms, a, ids)
    ensures var r := Adjust(ms, map[])[a..b];
      && multiset(r) == multiset(ms[a..b])
      && Sorted(Tools(r), ByCall(ids)) && OfRank(Tools(r), ByCall(ids), k) == OfRank(Tools(ms[a..b]), ByCall(ids), k)
  {
    hide Adjust, AdjustRun, Tools, OfRank, OrderAfter, OrderOf, StableSort, Rank, CallIndex;
    RunsAreAdjusted(ms, map[], a, b);
    OrderOfLatest(ms, a, ids);
    var rank := Rank(OrderOf(ids));
    forall m ensures rank(m) == ByCall(ids)(m) { RankIsCallIndex(ids, m); }
    RunAdjusted(ms[a..b], OrderOf(ids));
    SortMeaning(Tools(ms[a..b]), rank, k);
    OfSameRank(Tools(Adjust(ms, map[])[a..b]), rank, ByCall(ids), k);
    OfSameRank(Tools(ms[a..b]), rank, ByCall(ids), k);
  }

  /** Of two tool results in one run the first does not answer a later call. */
  lemma ResultsInOrder(ms: seq<Msg>, a: nat, b: nat, ids: seq<string>, x: nat, y: nat)
    requires IsRun(ms, a, b) && LatestIds(ms, a, ids) && a <= x < y < b
    ensures var r := Adjust(ms, map[]);
      r[x].role == TOOL && r[y].role == TOOL ==> CallIndex(ids, r[x].toolCallId) <= CallIndex(ids, r[y].toolCallId)
  {
    hide Adjust, Tools, OfRank, CallIndex, Positions;
    ResultsFollowCalls(ms, a, b, ids, 0);
    var run := Adjust(ms, map[])[a..b];
    PositionsMeaning(run);
    var p := Positions(run);
    if run[x - a].role == TOOL && run[y - a].role == TOOL {
      AllPositions(run, x - a);
      AllPositions(run, y - a);
      var i :| 0 <= i < |p| && p[i] == x - a;
      var j :| 0 <= j < |p| && p[j] == y - a;
      assert i < j;
      assert ByCall(ids)(Tools(run)[i]) <= ByCall(ids)(Tools(run)[j]);
    }
  }

  // ---------- the loops ----------

  method CallOrder(ids: seq<string>) returns (callOrder: Order)
    ensures callOrder == OrderOf(ids)
  {
    callOrder := map[];
    for idx := 0 to |ids|
      invariant callOrder == OrderOf(ids[..idx])
    {
      assert ids[..idx + 1][..idx] == ids[..idx];
      var id := ids[idx];
      if id != "" {
        callOrder := callOrder[id := idx];
      }
    }
    assert ids[..|ids|] == ids;
  }

  /** The run that starts at `i`: where it ends and where its tool messages are. */
  method CollectRun(ms: seq<Msg>, i: nat) returns (runEnd: nat, positions: seq<nat>)
    requires i <= |ms|
    ensures runEnd == i + RunLength(ms[i..]) && runEnd <= |ms|
    ensures positions == Shift(Positions(ms[i..runEnd]), i)
  {
    hide InRun, Positions, Shift, RunLength;
    NoPositions(i);
    assert ms[i..i] == [];
    positions := [];
    runEnd := i;
    while runEnd < |ms|
      invariant i <= runEnd <= |ms| && forall k :: i <= k < runEnd ==> InRun(ms[k])
      invariant positions == Shift(Positions(ms[i..runEnd]), i)
    {
      InRunIs(ms[runEnd]);
      var role := ms[runEnd].role;
      MorePositions(ms, i, runEnd);
      if role == TOOL {
        positions := positions + [runEnd];
      } else if role != USER {
        break;
      }
      runEnd := runEnd + 1;
    }
    RunLengthIs(ms[i..], runEnd - i);
  }

  lemma NoPositions(base: nat)
    ensures Shift(Positions([]), base) == []
  {}

  lemma MorePositions(ms: seq<Msg>, i: nat, e: nat)
    requires i <= e < |ms|
    ensures Shift(Positions(ms[i..e + 1]), i) ==
      Shift(Positions(ms[i..e]), i) + if ms[e].role == TOOL then [e] else []
  {
    var run := ms[i..e + 1];
    assert run[..e - i] == ms[i..e] && run[e - i] == ms[e];
    hide Positions;
  }

  lemma InRunIs(m: Msg)
    ensures InRun(m) <==> m.role == USER || m.role == TOOL
  {}

  function Shift(p: seq<nat>, base: nat): (r: seq<nat>)
    ensures |r| == |p| && forall j :: 0 <= j < |p| ==> r[j] == p[j] + base
  {
    seq(|p|, j requires 0 <= j < |p| => p[j] + base)
  }

  /** Writes the sorted results back to their positions. */
  method SortRun(ms: seq<Msg>, i: nat, runEnd: nat, positions: seq<nat>, callOrder: Order) returns (r: seq<Msg>)
    requires i <= runEnd <= |ms| && positions == Shift(Positions(ms[i..runEnd]), i)
    ensures r == ms[..i] + AdjustRun(ms[i..runEnd], callOrder) + ms[runEnd..]
  {
    hide Positions, Tools, Place, StableSort;
    ghost var run := ms[i..runEnd];
    PositionsMeaning(run);
    var results: seq<Msg> := [];
    for k := 0 to |positions|
      invariant |results| == k && forall j :: 0 <= j < k ==> results[j] == Tools(run)[j]
    {
      assert run[Positions(run)[k]] == ms[positions[k]];
      results := results + [ms[positions[k]]];
    }
    assert results == Tools(run);
    results := StableSort(results, Rank(callOrder));
    r := ms;
    for k := 0 to |positions|
      invariant |r| == |ms|
      invariant forall j :: 0 <= j < k ==> r[positions[j]] == results[j]
      invariant forall x :: 0 <= x < |ms| && x !in positions[..k] ==> r[x] == ms[x]
    {
      assert positions[..k + 1] == positions[..k] + [positions[k]];
      r := r[positions[k] := results[k]];
    }
    assert positions[..|positions|] == positions;
    Placed(ms, i, runEnd, positions, results, r);
  }

  lemma PlacedAt(ms: seq<Msg>, i: nat, runEnd: nat, positions: seq<nat>, results: seq<Msg>, r: seq<Msg>, x: nat)
    requires i <= x < runEnd <= |ms| == |r| && positions == Shift(Positions(ms[i..runEnd]), i)
    requires |results| == |Tools(ms[i..runEnd])| == |positions|
    requires forall j :: 0 <= j < |positions| ==> positions[j] < |r| && r[positions[j]] == results[j]
    requires x !in positions ==> r[x] == ms[x]
    ensures r[x] == Place(ms[i..runEnd], results)[x - i]
  {
    hide Positions, Tools, Place;
    var run := ms[i..runEnd];
    PlaceAtOther(run, results, x - i);
    if run[x - i].role == TOOL {
      var j :| 0 <= j < |Positions(run)| && Positions(run)[j] == x - i;
      assert positions[j] == x;
      PlaceAtTool(run, results, j);
    } else {
      OnlyTools(ms, i, runEnd, x);
    }
  }

  lemma OnlyTools(ms: seq<Msg>, i: nat, runEnd: nat, x: nat)
    requires i <= runEnd <= |ms|
    ensures x in Shift(Positions(ms[i..runEnd]), i) ==> i <= x < runEnd && ms[x].role == TOOL
  {
    hide Positions;
    var run := ms[i..runEnd];
    PositionsMeaning(run);
    assert forall j :: 0 <= j < |Positions(run)| ==> Positions(run)[j] < |run| && run[Positions(run)[j]].role == TOOL;
  }

  lemma Placed(ms: seq<Msg>, i: nat, runEnd: nat, positions: seq<nat>, results: seq<Msg>, r: seq<Msg>)
    requires i <= runEnd <= |ms| == |r| && positions == Shift(Positions(ms[i..runEnd]), i)
    requires |results| == |Tools(ms[i..runEnd])| == |positions|
    requires forall j :: 0 <= j < |positions| ==> positions[j] < |r| && r[positions[j]] == results[j]
    requires forall x :: 0 <= x < |ms| && x !in positions ==> r[x] == ms[x]
    ensures r == ms[..i] + Place(ms[i..runEnd], results) + ms[runEnd..]
  {
    hide Tools, Place, Positions, Shift;
    var p := Place(ms[i..runEnd], results);
    forall x | i <= x < runEnd ensures r[x] == p[x - i] { PlacedAt(ms, i, runEnd, positions, results, r, x); }
    forall x | 0 <= x < i ensures r[x] == ms[x] { OnlyTools(ms, i, runEnd, x); }
    forall x | runEnd <= x < |ms| ensures r[x] == ms[x] { OnlyTools(ms, i, runEnd, x); }
    ThreeParts(ms, i, runEnd, p, r);
  }

  lemma ThreeParts(ms: seq<Msg>, i: nat, e: nat, p: seq<Msg>, r: seq<Msg>)
    requires i <= e <= |ms| == |r| && |p| == e - i
    requires forall x :: 0 <= x < i ==> r[x] == ms[x]
    requires forall x :: i <= x < e ==> r[x] == p[x - i]
    requires forall x :: e <= x < |ms| ==> r[x] == ms[x]
    ensures r == ms[..i] + p + ms[e..]
  {}

  /** The run that starts at `i`: two results or more are sorted when calls are known. */
  method HandleRun(ms: seq<Msg>, i: nat, callOrder: Order) returns (r: seq<Msg>, runEnd: nat)
    requires i <= |ms|
    ensures runEnd == i + RunLength(ms[i..]) && runEnd <= |ms|
    ensures r == ms[..i] + AdjustRun(ms[i..runEnd], callOrder) + ms[runEnd..]
  {
    hide AdjustRun, RunLength, Positions;
    r := ms;
    var positions;
    runEnd, positions := CollectRun(ms, i);
    if |positions| > 1 && callOrder != map[] {
      r := SortRun(ms, i, runEnd, positions, callOrder);
    } else {
      NothingToSort(ms[i..runEnd], callOrder);
      assert ms == ms[..i] + ms[i..runEnd] + ms[runEnd..];
    }
  }

  method SortToolResults(messages: seq<Msg>) returns (adjusted: seq<Msg>)
    ensures adjusted == Adjust(messages, map[])
  {
    hide Adjust, AdjustRun, OrderOf, OrderAfterFirst, RunLength;
    adjusted := messages;
    var callOrder: Order := map[];
    var i := 0;
    assert messages[0..] == messages;
    while i < |adjusted|
      invariant i <= |adjusted| == |messages| && adjusted[i..] == messages[i..]
      invariant Adjust(messages, map[]) == adjusted[..i] + Adjust(messages[i..], callOrder)
    {
      ghost var rest := messages[i..];
      assert adjusted[i] == adjusted[i..][0] == rest[0];
      if Calls(adjusted[i]) {
        AdjustSkips(rest, callOrder);
        CallsGiveOrder(adjusted[i], callOrder);
        StepOver(messages, adjusted, i, i + 1);
        callOrder := CallOrder(adjusted[i].callIds);
        i := i + 1;
        continue;
      }
      if !InRun(adjusted[i]) {
        AdjustSkips(rest, callOrder);
        CallsGiveOrder(adjusted[i], callOrder);
        StepOver(messages, adjusted, i, i + 1);
        i := i + 1;
        continue;
      }
      AdjustSplits(rest, callOrder);
      ghost var before := adjusted;
      var runEnd;
      adjusted, runEnd := HandleRun(adjusted, i, callOrder);
      StepOver(messages, before, i, runEnd);
      RunDone(before, adjusted, i, runEnd, AdjustRun(before[i..runEnd], callOrder));
      i := runEnd;
    }
    assert messages[i..] == [] && Adjust([], callOrder) == [] by { AdjustNothing(callOrder); }
    assert adjusted[..i] + [] == adjusted;
  }

  lemma CallsGiveOrder(m: Msg, order: Order)
    ensures OrderAfterFirst(m, order) == if Calls(m) then OrderOf(m.callIds) else order
    ensures Calls(m) ==> !InRun(m)
  {}

  lemma AdjustNothing(order: Order)
    ensures Adjust([], order) == []
  {}

  lemma StepOver(ms: seq<Msg>, adjusted: seq<Msg>, i: nat, e: nat)
    requires i <= e <= |ms| == |adjusted| && adjusted[i..] == ms[i..]
    ensures ms[i..][e - i..] == ms[e..] == adjusted[e..] && ms[i..][..e - i] == adjusted[i..e]
    ensures adjusted[..e] == adjusted[..i] + adjusted[i..e]
  {
    assert adjusted[e..] == adjusted[i..][e - i..];
    assert adjusted[i..e] == adjusted[i..][..e - i];
  }

  lemma RunDone(before: seq<Msg>, after: seq<Msg>, i: nat, e: nat, run: seq<Msg>)
    requires i <= e <= |before| && |run| == e - i && after == before[..i] + run + before[e..]
    ensures after[..e] == before[..i] + run && after[e..] == before[e..]
  {}

  /** At most one result, or no known call: the stable sort would change nothing. */
  lemma NothingToSort(run: seq<Msg>, order: Order)
    requires |Positions(run)| <= 1 || order == map[]
    ensures AdjustRun(run, order) == run
  {
    hide Place, Positions;
    PositionsMeaning(run);
    SortOfSorted(Tools(run), Rank(order));
    PlaceOwn(run);
  }

  lemma {:induction false} PlaceOwn(run: seq<Msg>)
    ensures Place(run, Tools(run)) == run
    decreases |run|
  {
    if run != [] {
      PlaceStep(run, Tools(run));
      PlaceOwn(run[..|run| - 1]);
    }
  }
}
