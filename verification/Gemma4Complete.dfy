/** Arguments that the grammar accepts completely are JSON text for the value they write. */
module Gemma4Complete {
  import opened Wrappers
  import opened PegMatch
  import opened JsonReader
  import opened Gemma4Json
  import opened Gemma4Value
  import opened Gemma4Number
  import opened Gemma4Parser

  predicate Finished(kind: Kind, n: Node) {
    if kind == ELEMENT then IsValue(n) else IsMember(n)
  }

  predicate AllComplete(kind: Kind, ns: seq<Node>) {
    if kind == ELEMENT then AllValues(ns) else AllMembers(ns)
  }

  lemma TokenComplete(rule: Rule, inner: Rule, s: string, m: Match)
    requires rule in {NUMBER, BOOL, NULL} && m.Matched? && |m.rest| < |s| && ReadsAtoms(s, m.rest)
    ensures IsPayload(Token(rule, inner, s, m).node)
  {}

  lemma {:induction false} PayloadComplete(s: string)
    requires Payload(s).Done?
    ensures IsPayload(Payload(s).node)
    decreases |s|, 1
  {
    hide StringRule, DictRule, ArrayRule, Number, Literal, IsPayload;
    if StringRule(s).Done? {
      StringComplete(s);
    } else if DictRule(s).Done? {
      DictComplete(s);
    } else if ArrayRule(s).Done? {
      ArrayComplete(s);
    } else if Number(s).Matched? {
      NumberReads(s);
      TokenComplete(NUMBER, OTHER_RULE, s, Number(s));
    } else if BoolRule(s).Done? {
      BoolComplete(s);
    } else {
      LiteralReads("null", s);
      TokenComplete(NULL, OTHER_RULE, s, Literal("null", s));
    }
  }

  lemma StringComplete(s: string)
    requires StringRule(s).Done?
    ensures IsPayload(StringRule(s).node)
  {
    hide Until, Literal;
  }

  lemma BoolComplete(s: string)
    requires BoolRule(s).Done?
    ensures IsPayload(BoolRule(s).node)
  {
    hide Literal, IsPayload;
    var l := if Literal("true", s).Matched? then "true" else "false";
    LiteralReads(l, s);
    TokenComplete(BOOL, OTHER_RULE, s, Literal(l, s));
  }

  lemma {:induction false} DictComplete(s: string)
    requires DictRule(s).Done?
    ensures IsPayload(DictRule(s).node)
    decreases |s|, 0
  {
    hide Inside, Literal, Space;
    InsideComplete(MEMBER, "}", Space(Literal("{", s).rest));
  }

  lemma {:induction false} ArrayComplete(s: string)
    requires ArrayRule(s).Done?
    ensures IsPayload(ArrayRule(s).node)
    decreases |s|, 0
  {
    hide Inside, Literal, Space;
    InsideComplete(ELEMENT, "]", Space(Literal("[", s).rest));
  }

  lemma {:induction false} ItemComplete(kind: Kind, s: string)
    requires Item(kind, s).Done?
    ensures Finished(kind, Item(kind, s).node)
    decreases |s|, 3
  {
    hide ValueRule, KvRule, IsValue, IsMember;
    if kind == ELEMENT { ValueComplete(s); } else { KvComplete(s); }
  }

  lemma {:induction false} ValueComplete(s: string)
    requires ValueRule(s).Done?
    ensures IsValue(ValueRule(s).node)
    decreases |s|, 2
  {
    hide Payload, IsPayload;
    PayloadComplete(s);
  }

  lemma {:induction false} KvComplete(s: string)
    requires KvRule(s).Done?
    ensures IsMember(KvRule(s).node)
    decreases |s|, 2
  {
    hide KeyRule, ValueRule, IsValue, Space;
    KeyComplete(s);
    ValueComplete(Space(KeyRule(s).rest));
  }

  lemma KeyComplete(s: string)
    requires KeyRule(s).Done?
    ensures IsKey(KeyRule(s).node)
  {
    hide Chars, Literal;
  }

  lemma {:induction false} OnwardsComplete(kind: Kind, close: string, s: string)
    requires Onwards(kind, close, s).Closed?
    ensures AllComplete(kind, Onwards(kind, close, s).nodes)
    decreases |s|, 4
  {
    hide Item, Tail, IsValue, IsMember;
    ItemComplete(kind, s);
    var n, rest := Item(kind, s).node, Item(kind, s).rest;
    TailComplete(kind, close, rest);
    var ns := Tail(kind, close, rest).nodes;
    assert ([n] + ns)[1..] == ns;
  }

  lemma {:induction false} InsideComplete(kind: Kind, close: string, s: string)
    requires Inside(kind, close, s).Closed?
    ensures AllComplete(kind, Inside(kind, close, s).nodes)
    decreases |s|, 5
  {
    hide Onwards;
    if Literal(close, s).Missed? { OnwardsComplete(kind, close, s); }
  }

  lemma {:induction false} TailComplete(kind: Kind, close: string, s: string)
    requires Tail(kind, close, s).Closed?
    ensures AllComplete(kind, Tail(kind, close, s).nodes)
    decreases |s|, 6
  {
    hide Onwards, Item, AfterComma;
    var r := AfterComma(s);
    if r.Some? && !Item(kind, r.value).Malformed? { OnwardsComplete(kind, close, r.value); }
  }

  /** Arguments that the grammar accepts are rendered as JSON text for exactly the value they write. */
  lemma ArgumentsAreJson(s: string)
    requires DictRule(s).Done?
    ensures var n := DictRule(s).node; IsPayload(n) && ReadValue(ToJson(n)) == Some((Meaning(n), ""))
  {
    hide DictRule, IsPayload, Meaning, ReadValue;
    DictComplete(s);
    CompleteArguments(DictRule(s).node);
  }
}
