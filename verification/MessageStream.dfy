/** Streaming a message: every partial parse is given stable tool call ids and turned into deltas. */
module MessageStream {
  import opened Wrappers
  import opened Messages
  import opened MessageDiff

  // ---------- tool call ids ----------

  /** The id cached for the call at position k: its own id, or the next generated one. */
  function FirstId(own: string, generated: nat, gen: nat -> string): string {
    if own == "" then gen(generated) else own
  }

  /** The cache after every call of the message has an entry. */
  function CacheAfter(calls: seq<ToolCall>, cache: seq<string>, generated: nat, gen: nat -> string): (r: (seq<string>, nat))
    ensures |r.0| == if |cache| < |calls| then |calls| else |cache|
    ensures cache <= r.0
    decreases |calls| - |cache|
  {
    if |calls| <= |cache| then (cache, generated)
    else
      var own := calls[|cache|].id;
      CacheAfter(calls, cache + [FirstId(own, generated, gen)], if own == "" then generated + 1 else generated, gen)
  }

  function WithIds(calls: seq<ToolCall>, cache: seq<string>): (r: seq<ToolCall>)
    requires |calls| <= |cache|
    ensures |r| == |calls|
    ensures forall k :: 0 <= k < |r| ==> r[k] == calls[k].(id := cache[k])
  {
    seq(|calls|, k requires 0 <= k < |calls| => calls[k].(id := cache[k]))
  }

  function Unidentified(calls: seq<ToolCall>, lo: nat, hi: nat): nat
    requires hi <= |calls|
  {
    if hi <= lo then 0 else Unidentified(calls, lo, hi - 1) + if calls[hi - 1].id == "" then 1 else 0
  }

  lemma {:induction false} UnidentifiedFirst(calls: seq<ToolCall>, lo: nat, hi: nat)
    requires lo < hi <= |calls|
    ensures Unidentified(calls, lo, hi) == (if calls[lo].id == "" then 1 else 0) + Unidentified(calls, lo + 1, hi)
  {
    if lo + 1 < hi { UnidentifiedFirst(calls, lo, hi - 1); }
  }

  /** A call without an entry keeps the id it has. If it has none it is given the generated id that
      follows those of the calls without id before it. */
  lemma {:induction false} CacheMeaning(calls: seq<ToolCall>, cache: seq<string>, generated: nat, gen: nat -> string, k: nat)
    requires |cache| <= k < |calls|
    ensures CacheAfter(calls, cache, generated, gen).0[k] ==
      if calls[k].id != "" then calls[k].id else gen(generated + Unidentified(calls, |cache|, k))
    decreases |calls| - |cache|
  {
    var own := calls[|cache|].id;
    var longer, next := cache + [FirstId(own, generated, gen)], if own == "" then generated + 1 else generated;
    assert CacheAfter(calls, cache, generated, gen) == CacheAfter(calls, longer, next, gen);
    hide CacheAfter;
    if k == |cache| {
      assert CacheAfter(calls, longer, next, gen).0[k] == longer[k];
    } else {
      CacheMeaning(calls, longer, next, gen, k);
      UnidentifiedFirst(calls, |cache|, k);
    }
  }

  /** As many ids are generated as there were calls without one. */
  lemma {:induction false} CacheGenerates(calls: seq<ToolCall>, cache: seq<string>, generated: nat, gen: nat -> string)
    requires |cache| <= |calls|
    ensures CacheAfter(calls, cache, generated, gen).1 == generated + Unidentified(calls, |cache|, |calls|)
    decreases |calls| - |cache|
  {
    if |cache| < |calls| {
      var own := calls[|cache|].id;
      var longer, next := cache + [FirstId(own, generated, gen)], if own == "" then generated + 1 else generated;
      assert CacheAfter(calls, cache, generated, gen) == CacheAfter(calls, longer, next, gen);
      hide CacheAfter;
      CacheGenerates(calls, longer, next, gen);
      UnidentifiedFirst(calls, |cache|, |calls|);
    }
  }

  /** The server's state for one streamed message. */
  class Stream {
    var chatMsg: Message
    var ids: seq<string>
    var generated: nat
    const gen: nat -> string

    constructor (gen: nat -> string)
      ensures chatMsg == EMPTY_MESSAGE && ids == [] && generated == 0 && this.gen == gen
    {
      chatMsg, ids, generated := EMPTY_MESSAGE, [], 0;
      this.gen := gen;
    }

    function State(): StreamState
      reads this
    {
      StreamState(chatMsg, ids, generated)
    }

    /** Overwrites every call's id from the cache, growing the cache where it is short. */
    method SetToolCallIds(msg: Message) returns (r: Message)
      modifies this`ids, this`generated
      ensures (ids, generated) == CacheAfter(msg.calls, old(ids), old(generated), gen)
      ensures r == msg.(calls := WithIds(msg.calls, ids))
    {
      var calls := msg.calls;
      for i := 0 to |calls|
        invariant |calls| == |msg.calls|
        invariant i <= |ids| || i == 0
        invariant |old(ids)| <= |ids| && (|ids| <= |old(ids)| || |ids| <= i)
        invariant CacheAfter(msg.calls, ids, generated, gen) == CacheAfter(msg.calls, old(ids), old(generated), gen)
        invariant forall k :: 0 <= k < i ==> k < |ids| && calls[k] == msg.calls[k].(id := ids[k])
        invariant forall k :: i <= k < |calls| ==> calls[k] == msg.calls[k]
      {
        if |ids| <= i {
          var id := calls[i].id;
          if id == "" {
            id := gen(generated);
            generated := generated + 1;
          }
          ids := ids + [id];
        }
        calls := calls[i := calls[i].(id := ids[i])];
      }
      r := msg.(calls := calls);
      assert calls == WithIds(msg.calls, ids);
    }

    /** One more partial parse: the deltas, or the exception of the diff. An empty parse is ignored. */
    method Update(parsed: Message) returns (diffs: Result<seq<Diff>>)
      modifies this
      ensures State() == old(State()).Next(parsed, gen)
      ensures diffs == old(State()).Deltas(parsed, gen)
    {
      var prv := chatMsg;
      diffs := Success([]);
      if parsed != EMPTY_MESSAGE {
        var m := SetToolCallIds(parsed);
        chatMsg := m;
        diffs := ComputeDiffs(prv, chatMsg);
      }
    }
  }

  datatype StreamState = StreamState(msg: Message, ids: seq<string>, generated: nat) {
    function Cache(parsed: Message, gen: nat -> string): (seq<string>, nat) {
      CacheAfter(parsed.calls, ids, generated, gen)
    }

    function Next(parsed: Message, gen: nat -> string): StreamState {
      if parsed == EMPTY_MESSAGE then this
      else
        var c := Cache(parsed, gen);
        StreamState(parsed.(calls := WithIds(parsed.calls, c.0)), c.0, c.1)
    }

    function Deltas(parsed: Message, gen: nat -> string): Result<seq<Diff>> {
      if parsed == EMPTY_MESSAGE then Success([]) else Diffs(msg, Next(parsed, gen).msg)
    }
  }

  /** A parse that has found nothing changes nothing and sends nothing. */
  lemma EmptyParseIsIgnored(s: StreamState, gen: nat -> string)
    ensures s.Next(EMPTY_MESSAGE, gen) == s && s.Deltas(EMPTY_MESSAGE, gen) == Success([])
  {}

  // ---------- whole streams ----------

  /** Apart from ids, which the parser may report or not: texts extend, earlier calls are frozen,
      the last call's name and arguments extend, calls are only appended. */
  predicate GrowsTo(p: Message, n: Message) {
    && p.reasoning <= n.reasoning && p.content <= n.content
    && |p.calls| <= |n.calls|
    && (forall k :: 0 <= k < |p.calls| - 1 ==>
          n.calls[k].name == p.calls[k].name && n.calls[k].arguments == p.calls[k].arguments)
    && (forall k :: 0 <= k < |p.calls| ==>
          p.calls[k].name <= n.calls[k].name && p.calls[k].arguments <= n.calls[k].arguments)
  }

  lemma GrowsReflexive(m: Message)
    ensures GrowsTo(m, m)
  {}

  lemma GrowsTransitive(a: Message, b: Message, c: Message)
    requires GrowsTo(a, b) && GrowsTo(b, c)
    ensures GrowsTo(a, c)
  {
    forall k | 0 <= k < |a.calls| ensures a.calls[k].name <= c.calls[k].name && a.calls[k].arguments <= c.calls[k].arguments {
      assert a.calls[k].name <= b.calls[k].name <= c.calls[k].name;
      assert a.calls[k].arguments <= b.calls[k].arguments <= c.calls[k].arguments;
    }
  }

  predicate GrowingFrom(m: Message, parses: seq<Message>)
    decreases |parses|
  {
    parses == [] || (GrowsTo(m, parses[0]) && GrowingFrom(parses[0], parses[1..]))
  }

  function After(s: StreamState, parses: seq<Message>, gen: nat -> string): StreamState
    decreases |parses|
  {
    if parses == [] then s else After(s.Next(parses[0], gen), parses[1..], gen)
  }

  /** All deltas of a stream; fails as soon as one step fails. */
  function AllDeltas(s: StreamState, parses: seq<Message>, gen: nat -> string): Result<seq<Diff>>
    decreases |parses|
  {
    if parses == [] then Success([])
    else
      var d := s.Deltas(parses[0], gen);
      var rest := AllDeltas(s.Next(parses[0], gen), parses[1..], gen);
      if d.Failure? || rest.Failure? then Failure else Success(d.value + rest.value)
  }

  ghost predicate Generates(gen: nat -> string) {
    forall k :: gen(k) != ""
  }

  predicate NoEmpty(ids: seq<string>) {
    forall k :: 0 <= k < |ids| ==> ids[k] != ""
  }

  /** The state of a stream whose last parse was `parsed`. */
  predicate Holds(s: StreamState, parsed: Message) {
    && |s.ids| == |s.msg.calls| == |parsed.calls| && NoEmpty(s.ids)
    && s.msg == parsed.(calls := WithIds(parsed.calls, s.ids))
  }

  lemma {:induction false} CacheNoEmpty(calls: seq<ToolCall>, cache: seq<string>, generated: nat, gen: nat -> string)
    requires Generates(gen) && NoEmpty(cache)
    ensures NoEmpty(CacheAfter(calls, cache, generated, gen).0)
    decreases |calls| - |cache|
  {
    if |calls| > |cache| {
      var own := calls[|cache|].id;
      CacheNoEmpty(calls, cache + [FirstId(own, generated, gen)], if own == "" then generated + 1 else generated, gen);
    }
  }

  lemma StepHolds(s: StreamState, p: Message, n: Message, gen: nat -> string)
    requires Generates(gen) && Holds(s, p) && GrowsTo(p, n)
    ensures Holds(s.Next(n, gen), n)
    ensures s.ids <= s.Next(n, gen).ids
    ensures s.Deltas(n, gen).Success? && Replay(s.msg, s.Deltas(n, gen).value) == s.Next(n, gen).msg
  {
    var t := s.Next(n, gen);
    if n != EMPTY_MESSAGE {
      CacheNoEmpty(n.calls, s.ids, s.generated, gen);
      assert Extends(s.msg, t.msg) by {
        forall k | 0 <= k < |s.msg.calls| ensures t.msg.calls[k].id == s.msg.calls[k].id {}
      }
      DiffsRebuildExactly(s.msg, t.msg);
    } else {
      assert p.calls == [] && s.msg == EMPTY_MESSAGE;
    }
  }

  /** Over any growing stream no diff fails, replaying all deltas rebuilds the message shown last,
      and an id once given to a call position is never changed. */
  lemma {:induction false} StreamRebuilds(s: StreamState, p: Message, parses: seq<Message>, gen: nat -> string)
    requires Generates(gen) && Holds(s, p) && GrowingFrom(p, parses)
    ensures var t := After(s, parses, gen);
      && Holds(t, LastOf(p, parses))
      && s.ids <= t.ids
      && AllDeltas(s, parses, gen).Success?
      && Replay(s.msg, AllDeltas(s, parses, gen).value) == t.msg
    decreases |parses|
  {
    if parses != [] {
      hide Holds, GrowsTo;
      var n := s.Next(parses[0], gen);
      StepHolds(s, p, parses[0], gen);
      StreamRebuilds(n, parses[0], parses[1..], gen);
      ReplayConcat(s.msg, s.Deltas(parses[0], gen).value, AllDeltas(n, parses[1..], gen).value);
      if |parses| > 1 { assert parses[1..][|parses| - 2] == parses[|parses| - 1]; }
    }
  }

  /** A whole stream, from the empty message. */
  lemma WholeStream(parses: seq<Message>, gen: nat -> string)
    requires Generates(gen) && GrowingFrom(EMPTY_MESSAGE, parses)
    ensures var s := StreamState(EMPTY_MESSAGE, [], 0);
      && AllDeltas(s, parses, gen).Success?
      && Replay(EMPTY_MESSAGE, AllDeltas(s, parses, gen).value) == After(s, parses, gen).msg
  {
    StreamRebuilds(StreamState(EMPTY_MESSAGE, [], 0), EMPTY_MESSAGE, parses, gen);
  }

  function LastOf(p: Message, parses: seq<Message>): Message {
    if parses == [] then p else parses[|parses| - 1]
  }

  const START := StreamState(EMPTY_MESSAGE, [], 0)

  /** Two moments of one stream: a call position keeps the id of its first appearance. */
  lemma IdsAreStable(early: seq<Message>, late: seq<Message>, k: nat, gen: nat -> string)
    requires Generates(gen) && GrowingFrom(EMPTY_MESSAGE, early + late)
    ensures var x, y := After(START, early, gen).msg, After(START, early + late, gen).msg;
      k < |x.calls| ==> k < |y.calls| && x.calls[k].id == y.calls[k].id && x.calls[k].id != ""
  {
    hide After, GrowingFrom, AllDeltas;
    GrowingSplit(EMPTY_MESSAGE, early, late);
    StreamRebuilds(START, EMPTY_MESSAGE, early, gen);
    var x, p := After(START, early, gen), LastOf(EMPTY_MESSAGE, early);
    StreamRebuilds(x, p, late, gen);
    AfterConcat(START, early, late, gen);
    var y := After(x, late, gen);
    if k < |x.msg.calls| {
      assert x.ids[k] == y.ids[k];
    }
  }

  lemma {:induction false} AfterConcat(s: StreamState, a: seq<Message>, b: seq<Message>, gen: nat -> string)
    ensures After(s, a + b, gen) == After(After(s, a, gen), b, gen)
    decreases |a|
  {
    if a == [] {
      assert a + b == b;
    } else {
      assert (a + b)[1..] == a[1..] + b;
      AfterConcat(s.Next(a[0], gen), a[1..], b, gen);
    }
  }

  lemma {:induction false} GrowingSplit(p: Message, a: seq<Message>, b: seq<Message>)
    requires GrowingFrom(p, a + b)
    ensures GrowingFrom(p, a) && GrowingFrom(LastOf(p, a), b)
    decreases |a|
  {
    if a == [] {
      assert a + b == b;
    } else {
      assert (a + b)[1..] == a[1..] + b && (a + b)[0] == a[0];
      GrowingSplit(a[0], a[1..], b);
    }
  }
}
