/** Gemma 4 tool arguments: the syntax tree of the model's own notation, rendered as JSON. */
module Gemma4Json {
  import opened JsonText

  datatype Rule =
    | NUMBER | BOOL | NULL | STRING_CONTENT | STRING | ARRAY
    | DICT_KEY_NAME | DICT_KEY | DICT_KV | DICT | VALUE | OTHER_RULE

  datatype Tag = REASONING | CONTENT | TOOL | TOOL_NAME | TOOL_ARGS | OTHER_TAG

  /** A node of the syntax tree; `isPartial` when the input ended inside it. */
  datatype Node = Node(rule: Rule, tag: Tag, text: string, children: seq<Node>, isPartial: bool)

  function ToJson(n: Node): string
    decreases n
  {
    if n.text == "" then ""
    else match n.rule
      case NUMBER => n.text
      case BOOL => n.text
      case NULL => n.text
      case STRING_CONTENT => Escape(n.text)
      case STRING =>
        "\"" + if n.children == [] then "" else ToJson(n.children[0]) + Unless(n.isPartial, "\"")
      case ARRAY => "[" + Elements(n.children) + Unless(n.isPartial, "]")
      case DICT_KEY_NAME => n.text
      case DICT_KEY =>
        "\"" + (if n.children == [] then "" else Escape(ToJson(n.children[0]))) + Unless(n.isPartial, "\":")
      case DICT_KV => Parts(n.children)
      case DICT => "{" + Elements(n.children) + Unless(n.isPartial, "}")
      case VALUE => if n.children == [] then "" else ToJson(n.children[0])
      case OTHER_RULE => ""
  }

  function Unless(partial: bool, closer: string): string {
    if partial then "" else closer
  }

  /** The children separated by commas. */
  function Elements(cs: seq<Node>): string
    decreases cs
  {
    if cs == [] then "" else ToJson(cs[0]) + if |cs| == 1 then "" else "," + Elements(cs[1..])
  }

  function Parts(cs: seq<Node>): string
    decreases cs
  {
    if cs == [] then "" else ToJson(cs[0]) + Parts(cs[1..])
  }

  // ---------- partial trees ----------

  /** A node that may be a truncated one. Where the flag matters for what is shown, which is for a tool name
      and for everything with a closing bracket, it has to be partial: other nodes are complete for the
      parser as soon as the input ends or a delimiter has begun. */
  predicate Open(p: Node) {
    p.isPartial || (p.tag != TOOL_NAME && p.rule !in {STRING, ARRAY, DICT_KEY, DICT})
  }

  /** Nothing of the node has been seen yet; its rule is the first alternative that was tried. */
  predicate Blank(p: Node)
    decreases p
  {
    p.text == "" && p.tag == OTHER_TAG && AllBlank(p.children)
  }

  predicate AllBlank(ps: seq<Node>)
    decreases ps
  {
    ps == [] || (Blank(ps[0]) && AllBlank(ps[1..]))
  }

  /** `p` is what `f` looked like earlier: the same node, a blank one, or an open one with truncated text and
      some of the children, the last of them perhaps truncated itself. */
  predicate Truncates(p: Node, f: Node)
    decreases f
  {
    p == f || Blank(p) ||
    (Open(p) && p.rule == f.rule && p.tag == f.tag && p.text <= f.text && Cut(p.children, f.children))
  }

  predicate Cut(ps: seq<Node>, fs: seq<Node>)
    decreases fs
  {
    ps == [] ||
    (fs != [] && if |ps| == 1 then Truncates(ps[0], fs[0]) else ps[0] == fs[0] && Cut(ps[1..], fs[1..]))
  }

  lemma Under(a: string, x: string, y: string)
    requires x <= y
    ensures a + x <= a + y
  {}

  lemma Further(x: string, y: string, z: string)
    requires x <= y
    ensures x <= y + z
  {}

  /** The rendering of a partial tree is a prefix of the rendering of every tree it grows into. */
  lemma {:induction false} ToJsonMonotone(p: Node, f: Node)
    requires Truncates(p, f)
    ensures ToJson(p) <= ToJson(f)
    decreases f
  {
    hide Escape;
    if p != f && p.text != "" {
      var ps, fs := p.children, f.children;
      match p.rule {
        case NUMBER => {}
        case BOOL => {}
        case NULL => {}
        case STRING_CONTENT => EscapeMonotone(p.text, f.text);
        case STRING => {
          if ps != [] {
            FirstMonotone(ps, fs);
            Further(ToJson(ps[0]), ToJson(fs[0]), Unless(f.isPartial, "\""));
            Under("\"", ToJson(ps[0]), ToJson(fs[0]) + Unless(f.isPartial, "\""));
            assert ToJson(ps[0]) + "" == ToJson(ps[0]);
          }
        }
        case ARRAY => BracketMonotone("[", ps, fs, Unless(f.isPartial, "]"));
        case DICT_KEY_NAME => {}
        case DICT_KEY => {
          if ps != [] {
            FirstMonotone(ps, fs);
            EscapeMonotone(ToJson(ps[0]), ToJson(fs[0]));
            Under("\"", Escape(ToJson(ps[0])), Escape(ToJson(fs[0])));
            Further("\"" + Escape(ToJson(ps[0])), "\"" + Escape(ToJson(fs[0])), Unless(f.isPartial, "\":"));
          }
        }
        case DICT_KV => PartsMonotone(ps, fs);
        case DICT => BracketMonotone("{", ps, fs, Unless(f.isPartial, "}"));
        case VALUE => { if ps != [] { FirstMonotone(ps, fs); } }
        case OTHER_RULE => {}
      }
    }
  }

  lemma {:induction false} FirstMonotone(ps: seq<Node>, fs: seq<Node>)
    requires Cut(ps, fs) && ps != []
    ensures fs != [] && ToJson(ps[0]) <= ToJson(fs[0])
    decreases fs
  {
    if |ps| == 1 { ToJsonMonotone(ps[0], fs[0]); }
  }

  lemma {:induction false} BracketMonotone(open: string, ps: seq<Node>, fs: seq<Node>, close: string)
    requires Cut(ps, fs)
    ensures open + Elements(ps) + "" <= open + Elements(fs) + close
    decreases fs, 1
  {
    ElementsMonotone(ps, fs);
    Under(open, Elements(ps), Elements(fs));
    Further(open + Elements(ps), open + Elements(fs), close);
  }

  lemma {:induction false} ElementsMonotone(ps: seq<Node>, fs: seq<Node>)
    requires Cut(ps, fs)
    ensures Elements(ps) <= Elements(fs)
    decreases fs, 0
  {
    if |ps| == 1 {
      ToJsonMonotone(ps[0], fs[0]);
      Further(ToJson(ps[0]), ToJson(fs[0]), if |fs| == 1 then "" else "," + Elements(fs[1..]));
    } else if |ps| > 1 {
      ElementsMonotone(ps[1..], fs[1..]);
      Under(",", Elements(ps[1..]), Elements(fs[1..]));
      Under(ToJson(ps[0]), "," + Elements(ps[1..]), "," + Elements(fs[1..]));
    }
  }

  lemma {:induction false} PartsMonotone(ps: seq<Node>, fs: seq<Node>)
    requires Cut(ps, fs)
    ensures Parts(ps) <= Parts(fs)
    decreases fs
  {
    if |ps| == 1 {
      ToJsonMonotone(ps[0], fs[0]);
      Further(ToJson(ps[0]), ToJson(fs[0]), Parts(fs[1..]));
    } else if |ps| > 1 {
      PartsMonotone(ps[1..], fs[1..]);
      Under(ToJson(ps[0]), Parts(ps[1..]), Parts(fs[1..]));
    }
  }
}
