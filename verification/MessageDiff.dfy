/** Deltas between two successive partial parses of a message, and the client that adds them up. */
module MessageDiff {
  import opened Wrappers
  import opened Messages

  /** `index` is absent for text deltas. */
  datatype Diff = Diff(reasoningDelta: string, contentDelta: string, index: Option<nat>, callDelta: ToolCall)

  function ReasoningDiff(d: string): Diff { Diff(d, "", None, EMPTY_CALL) }

  function ContentDiff(d: string): Diff { Diff("", d, None, EMPTY_CALL) }

  function CallDiff(k: nat, c: ToolCall): Diff { Diff("", "", Some(k), c) }

  /** What has to be appended to `last`; nothing when `current` lost a partial stop word. */
  function StringDiff(last: string, current: string): Result<string> {
    if last == "" then Success(current)
    else if !(last <= current) then (if current <= last then Success("") else Failure)
    else Success(current[|last|..])
  }

  function ReasoningDiffs(last: string, current: string): Result<seq<Diff>> {
    if last == current then Success([])
    else
      var d := StringDiff(last, current);
      if d.Failure? then Failure else Success([ReasoningDiff(d.value)])
  }

  function ContentDiffs(last: string, current: string): Result<seq<Diff>> {
    if last == current then Success([])
    else
      var d := StringDiff(last, current);
      if d.Failure? then Failure else Success([ContentDiff(d.value)])
  }

  /** The delta of the last call known before. */
  function LastCallDiffs(k: nat, p: ToolCall, n: ToolCall): Result<seq<Diff>> {
    if p.name != n.name && p.name != "" && n.name != "" && !(p.name <= n.name) then Failure
    else
      var args := StringDiff(p.arguments, n.arguments);
      if args.Failure? then Failure
      else if args.value != "" || p.id != n.id || p.name != n.name then
        if p.id != n.id || p.name != n.name then Success([CallDiff(k, ToolCall(n.name, args.value, n.id))])
        else Success([CallDiff(k, ToolCall("", args.value, ""))])
      else Success([])
  }

  function NewCallDiffs(calls: seq<ToolCall>, k: nat): (r: seq<Diff>)
    requires k <= |calls|
    ensures |r| == |calls| - k
    decreases |calls| - k
  {
    if k == |calls| then [] else [CallDiff(k, calls[k])] + NewCallDiffs(calls, k + 1)
  }

  function Diffs(prv: Message, new_: Message): Result<seq<Diff>> {
    var r := ReasoningDiffs(prv.reasoning, new_.reasoning);
    if r.Failure? then Failure
    else
      var c := ContentDiffs(prv.content, new_.content);
      if c.Failure? || |new_.calls| < |prv.calls| then Failure
      else
        var k := |prv.calls|;
        var l := if k == 0 then Success([]) else LastCallDiffs(k - 1, prv.calls[k - 1], new_.calls[k - 1]);
        if l.Failure? then Failure else Success(r.value + c.value + l.value + NewCallDiffs(new_.calls, k))
  }

  lemma NextNewCall(ds: seq<Diff>, calls: seq<ToolCall>, k: nat)
    requires k < |calls|
    ensures ds + NewCallDiffs(calls, k) == ds + [CallDiff(k, calls[k])] + NewCallDiffs(calls, k + 1)
  {}

  lemma NoNewCalls(ds: seq<Diff>, calls: seq<ToolCall>)
    ensures ds + NewCallDiffs(calls, |calls|) == ds
  {}

  lemma DiffsInParts(prv: Message, new_: Message)
    ensures var r, c := ReasoningDiffs(prv.reasoning, new_.reasoning), ContentDiffs(prv.content, new_.content);
      var k := |prv.calls|;
      if r.Failure? || c.Failure? || |new_.calls| < k then Diffs(prv, new_).Failure?
      else
        var l := if k == 0 then Success([]) else LastCallDiffs(k - 1, prv.calls[k - 1], new_.calls[k - 1]);
        Diffs(prv, new_) == if l.Failure? then Failure else Success(r.value + c.value + l.value + NewCallDiffs(new_.calls, k))
  {
    hide ReasoningDiffs, ContentDiffs, LastCallDiffs, NewCallDiffs;
  }

  method ComputeDiffs(prv: Message, new_: Message) returns (result: Result<seq<Diff>>)
    ensures result == Diffs(prv, new_)
  {
    hide StringDiff, Diffs, NewCallDiffs;
    DiffsInParts(prv, new_);
    var diffs: seq<Diff> := [];
    if prv.reasoning != new_.reasoning {
      var d := StringDiff(prv.reasoning, new_.reasoning);
      if d.Failure? { return Failure; }
      diffs := diffs + [ReasoningDiff(d.value)];
    }
    ghost var r := ReasoningDiffs(prv.reasoning, new_.reasoning).value;
    assert ReasoningDiffs(prv.reasoning, new_.reasoning).Success? && diffs == r;
    hide ReasoningDiffs;
    if prv.content != new_.content {
      var d := StringDiff(prv.content, new_.content);
      if d.Failure? { return Failure; }
      diffs := diffs + [ContentDiff(d.value)];
    }
    ghost var c := ContentDiffs(prv.content, new_.content).value;
    assert ContentDiffs(prv.content, new_.content).Success? && diffs == r + c;
    hide ContentDiffs;
    if |new_.calls| < |prv.calls| {
      return Failure;
    }
    if prv.calls != [] {
      var idx := |prv.calls| - 1;
      var pref, newf := prv.calls[idx], new_.calls[idx];
      if pref.name != newf.name && pref.name != "" && newf.name != "" && !(pref.name <= newf.name) {
        return Failure;
      }
      var argsDiff := StringDiff(pref.arguments, newf.arguments);
      if argsDiff.Failure? { return Failure; }
      if argsDiff.value != "" || pref.id != newf.id || pref.name != newf.name {
        var delta := EMPTY_CALL;
        if pref.id != newf.id || pref.name != newf.name {
          delta := delta.(id := newf.id, name := newf.name);
        }
        diffs := diffs + [CallDiff(idx, delta.(arguments := argsDiff.value))];
      }
    }
    ghost var k := |prv.calls|;
    ghost var l := if k == 0 then [] else LastCallDiffs(k - 1, prv.calls[k - 1], new_.calls[k - 1]).value;
    assert diffs == r + c + l;
    hide LastCallDiffs;
    ghost var all := diffs + NewCallDiffs(new_.calls, k);
    assert Diffs(prv, new_) == Success(all);
    for idx := |prv.calls| to |new_.calls|
      invariant all == diffs + NewCallDiffs(new_.calls, idx)
    {
      NextNewCall(diffs, new_.calls, idx);
      diffs := diffs + [CallDiff(idx, new_.calls[idx])];
    }
    NoNewCalls(diffs, new_.calls);
    return Success(diffs);
  }

  // ---------- the client ----------

  function Padded(calls: seq<ToolCall>, n: nat): (r: seq<ToolCall>)
    ensures |r| == if |calls| < n then n else |calls|
    ensures forall k :: 0 <= k < |r| ==> r[k] == if k < |calls| then calls[k] else EMPTY_CALL
  {
    if |calls| < n then calls + seq(n - |calls|, _ => EMPTY_CALL) else calls
  }

  /** A delta's name and id replace the known ones unless empty; its arguments are appended. */
  function Merge(c: ToolCall, d: ToolCall): ToolCall {
    ToolCall(if d.name != "" then d.name else c.name, c.arguments + d.arguments, if d.id != "" then d.id else c.id)
  }

  function Apply(m: Message, d: Diff): Message {
    var t := m.(reasoning := m.reasoning + d.reasoningDelta, content := m.content + d.contentDelta);
    match d.index
    case None => t
    case Some(k) =>
      var calls := Padded(t.calls, k + 1);
      t.(calls := calls[k := Merge(calls[k], d.callDelta)])
  }

  function Replay(m: Message, ds: seq<Diff>): Message
    decreases |ds|
  {
    if ds == [] then m else Replay(Apply(m, ds[0]), ds[1..])
  }

  lemma {:induction false} ReplayConcat(m: Message, a: seq<Diff>, b: seq<Diff>)
    ensures Replay(m, a + b) == Replay(Replay(m, a), b)
    decreases |a|
  {
    if a == [] {
      assert a + b == b;
    } else {
      assert (a + b)[1..] == a[1..] + b;
      ReplayConcat(Apply(m, a[0]), a[1..], b);
    }
  }

  // ---------- when the deltas add up ----------

  /** The last known call may only grow. */
  predicate CallGrows(p: ToolCall, n: ToolCall) {
    && p.arguments <= n.arguments
    && (n.name == p.name || (n.name != "" && p.name <= n.name))
    && (n.id == p.id || n.id != "")
  }

  /** Texts extend, earlier calls are frozen, the last call grows, calls are only appended. */
  predicate Extends(prv: Message, new_: Message) {
    && prv.reasoning <= new_.reasoning && prv.content <= new_.content
    && |prv.calls| <= |new_.calls|
    && (forall k :: 0 <= k < |prv.calls| - 1 ==> new_.calls[k] == prv.calls[k])
    && (prv.calls != [] ==> CallGrows(prv.calls[|prv.calls| - 1], new_.calls[|prv.calls| - 1]))
  }

  lemma StringDiffMeaning(last: string, current: string)
    ensures StringDiff(last, current).Success? <==> last <= current || current <= last
    ensures StringDiff(last, current).Success? ==>
      (last + StringDiff(last, current).value == current <==> last <= current)
  {
    if last == "" {
      assert last + current == current;
    } else if last <= current {
      assert last + current[|last|..] == current;
    } else if current <= last {
      assert last + "" == last;
    }
  }

  /** What was appended is sent. A text that lost its end, such as a partial stop word, sends nothing. */
  lemma StringDiffOf(last: string, d: string)
    ensures StringDiff(last, last + d) == Success(d)
    ensures d != "" ==> StringDiff(last + d, last) == Success("")
  {
    assert (last + d)[|last|..] == d && (last == "" ==> last + d == d);
  }

  function TextDelta(d: Diff, text: string): seq<Diff> {
    if text == "" then [] else [d]
  }

  /** Texts and calls that were appended: one delta for each text that grew and one for each new call. */
  lemma DiffsOf(m: Message, r: string, c: string, more: seq<ToolCall>)
    ensures Diffs(m, Message(m.content + c, m.reasoning + r, m.calls + more)) ==
      Success(TextDelta(ReasoningDiff(r), r) + TextDelta(ContentDiff(c), c)
        + seq(|more|, k requires 0 <= k < |more| => CallDiff(|m.calls| + k, more[k])))
  {
    hide StringDiff;
    var n := Message(m.content + c, m.reasoning + r, m.calls + more);
    var k := |m.calls|;
    StringDiffOf(m.reasoning, r);
    StringDiffOf(m.content, c);
    if k > 0 {
      assert n.calls[k - 1] == m.calls[k - 1];
      SameCall(k - 1, m.calls[k - 1]);
    }
    NewCallsAre(n.calls, k, more);
    var texts := TextDelta(ReasoningDiff(r), r) + TextDelta(ContentDiff(c), c);
    assert texts + [] == texts;
  }

  lemma SameCall(k: nat, p: ToolCall)
    ensures LastCallDiffs(k, p, p) == Success([])
  {
    LastCallOf(k, p, "");
  }

  lemma {:induction false} NewCallsAre(calls: seq<ToolCall>, k: nat, more: seq<ToolCall>)
    requires k <= |calls| && more == calls[k..]
    ensures NewCallDiffs(calls, k) == seq(|more|, j requires 0 <= j < |more| => CallDiff(k + j, more[j]))
    decreases |more|
  {
    if more != [] {
      NewCallsAre(calls, k + 1, more[1..]);
      var rest := NewCallDiffs(calls, k + 1);
      forall j | 0 <= j < |more| ensures ([CallDiff(k, calls[k])] + rest)[j] == CallDiff(k + j, more[j]) {
        if j > 0 { assert rest[j - 1] == CallDiff(k + j, more[1..][j - 1]); }
      }
    }
  }

  /** The last call known before: arguments that grew are sent alone; a new name or id is sent with both
      and with what the arguments gained. A name may come late, go away or grow, and nothing else. */
  lemma LastCallOf(k: nat, p: ToolCall, d: string)
    ensures LastCallDiffs(k, p, p.(arguments := p.arguments + d)) ==
      Success(if d == "" then [] else [CallDiff(k, ToolCall("", d, ""))])
    ensures forall name, id :: name != p.name || id != p.id ==>
      LastCallDiffs(k, p, ToolCall(name, p.arguments + d, id)) ==
        if p.name == "" || name == "" || p.name <= name then Success([CallDiff(k, ToolCall(name, d, id))]) else Failure
  {
    hide StringDiff;
    StringDiffOf(p.arguments, d);
  }

  /** The message after the text deltas. */
  lemma ReplayTexts(prv: Message, new_: Message)
    requires ReasoningDiffs(prv.reasoning, new_.reasoning).Success?
    requires ContentDiffs(prv.content, new_.content).Success?
    ensures var r := ReasoningDiffs(prv.reasoning, new_.reasoning).value;
      var c := ContentDiffs(prv.content, new_.content).value;
      var m := Replay(prv, r + c);
      && m.calls == prv.calls
      && (m.reasoning == new_.reasoning <==> prv.reasoning <= new_.reasoning)
      && (m.content == new_.content <==> prv.content <= new_.content)
  {
    StringDiffMeaning(prv.reasoning, new_.reasoning);
    StringDiffMeaning(prv.content, new_.content);
    var r := ReasoningDiffs(prv.reasoning, new_.reasoning).value;
    var c := ContentDiffs(prv.content, new_.content).value;
    ReplayConcat(prv, r, c);
    var m := Replay(prv, r);
    ReplayOne(prv, r);
    ReplayOne(m, c);
  }

  lemma ReplayOne(m: Message, ds: seq<Diff>)
    requires |ds| <= 1
    ensures Replay(m, ds) == if ds == [] then m else Apply(m, ds[0])
  {
    if ds != [] { assert ds[1..] == []; }
  }

  lemma ReplayLastCall(m: Message, n: ToolCall)
    requires m.calls != [] && LastCallDiffs(|m.calls| - 1, m.calls[|m.calls| - 1], n).Success?
    ensures var k := |m.calls| - 1; var p := m.calls[k]; var r := Replay(m, LastCallDiffs(k, p, n).value);
      && r.reasoning == m.reasoning && r.content == m.content
      && |r.calls| == |m.calls| && r.calls[..k] == m.calls[..k]
      && (r.calls[k] == n <==> CallGrows(p, n))
  {
    var k := |m.calls| - 1;
    var p := m.calls[k];
    StringDiffMeaning(p.arguments, n.arguments);
    ReplayOne(m, LastCallDiffs(k, p, n).value);
  }

  lemma ApplyNewCall(m: Message, c: ToolCall)
    ensures Apply(m, CallDiff(|m.calls|, c)) == m.(calls := m.calls + [c])
  {
    assert m.reasoning + "" == m.reasoning && m.content + "" == m.content && "" + c.arguments == c.arguments;
    assert Apply(m, CallDiff(|m.calls|, c)).calls == m.calls + [c];
  }

  lemma {:induction false} ReplayNewCalls(m: Message, calls: seq<ToolCall>)
    requires |m.calls| <= |calls|
    ensures Replay(m, NewCallDiffs(calls, |m.calls|)) == m.(calls := m.calls + calls[|m.calls|..])
    decreases |calls| - |m.calls|
  {
    hide Apply;
    var k := |m.calls|;
    if k < |calls| {
      ApplyNewCall(m, calls[k]);
      var m1 := m.(calls := m.calls + [calls[k]]);
      assert NewCallDiffs(calls, k)[1..] == NewCallDiffs(calls, k + 1);
      ReplayNewCalls(m1, calls);
      assert m1.calls + calls[k + 1..] == m.calls + calls[k..];
    } else {
      assert calls[k..] == [] && m.calls + [] == m.calls;
    }
  }

  /** One step: the deltas are computed and rebuild the new message exactly when it extends the
      previous one. */
  lemma DiffsRebuildExactly(prv: Message, new_: Message)
    ensures (Diffs(prv, new_).Success? && Replay(prv, Diffs(prv, new_).value) == new_) <==> Extends(prv, new_)
  {
    StringDiffMeaning(prv.reasoning, new_.reasoning);
    StringDiffMeaning(prv.content, new_.content);
    if prv.calls != [] && |prv.calls| <= |new_.calls| {
      var k := |prv.calls| - 1;
      StringDiffMeaning(prv.calls[k].arguments, new_.calls[k].arguments);
    }
    if Diffs(prv, new_).Success? {
      RebuildsIff(prv, new_);
    }
  }

  lemma RebuildsIff(prv: Message, new_: Message)
    requires Diffs(prv, new_).Success?
    ensures Replay(prv, Diffs(prv, new_).value) == new_ <==> Extends(prv, new_)
  {
    hide StringDiff, LastCallDiffs, NewCallDiffs, ReasoningDiffs, ContentDiffs, CallGrows, Replay;
    var r := ReasoningDiffs(prv.reasoning, new_.reasoning).value;
    var c := ContentDiffs(prv.content, new_.content).value;
    var k := |prv.calls|;
    ReplayTexts(prv, new_);
    var m1 := Replay(prv, r + c);
    var l := if k == 0 then [] else LastCallDiffs(k - 1, prv.calls[k - 1], new_.calls[k - 1]).value;
    var m2 := Replay(m1, l);
    if k > 0 { ReplayLastCall(m1, new_.calls[k - 1]); } else { ReplayOne(m1, l); }
    ReplayNewCalls(m2, new_.calls);
    ReplayConcat(prv, r + c, l);
    ReplayConcat(prv, r + c + l, NewCallDiffs(new_.calls, k));
    AppendedIff(m2.calls, new_.calls);
    if k > 0 {
      LastOneIff(m2.calls, new_.calls[..k]);
      FrozenIff(prv.calls[..k - 1], new_.calls[..k - 1]);
      assert new_.calls[..k][..k - 1] == new_.calls[..k - 1];
    } else {
      assert new_.calls[..0] == [] == m2.calls;
    }
  }

  lemma AppendedIff(a: seq<ToolCall>, b: seq<ToolCall>)
    requires |a| <= |b|
    ensures a + b[|a|..] == b <==> a == b[..|a|]
  {
    assert b == b[..|a|] + b[|a|..];
    assert (a + b[|a|..])[..|a|] == a;
  }

  lemma LastOneIff(a: seq<ToolCall>, b: seq<ToolCall>)
    requires |a| == |b| > 0
    ensures a == b <==> a[..|a| - 1] == b[..|b| - 1] && a[|a| - 1] == b[|b| - 1]
  {
    assert a == a[..|a| - 1] + [a[|a| - 1]] && b == b[..|b| - 1] + [b[|b| - 1]];
  }

  lemma FrozenIff(a: seq<ToolCall>, b: seq<ToolCall>)
    requires |a| == |b|
    ensures a == b <==> forall j :: 0 <= j < |a| ==> b[j] == a[j]
  {}
}
