/**
 Printing the parse tree of a Gemma tool call as JSON while the tree is still growing:
 what has been printed is never taken back, and a complete tree prints closed JSON.
 */
module GemmaPrinter {
  import opened Text
  import opened JsonText

  /** The grammar rules the printer distinguishes. */
  datatype Rule =
    | Number | Bool | Null | StringContent | String | Array
    | KeyName | Key | KeyValue | Dict | Value | OtherRule

  datatype Node = Node(rule: Rule, text: string, isPartial: bool, children: seq<Node>)

  function ToJson(n: Node): string
    decreases n, 1
  {
    if n.text == "" then ""
    else
      match n.rule
      case Number => n.text
      case Bool => n.text
      case Null => n.text
      case StringContent => EscapeInner(n.text)
      case String =>
        "\"" + (if n.children == [] then "" else ToJson(n.children[0]) + Unless(n.isPartial, "\""))
      case Array => "[" + Separated(n.children) + Unless(n.isPartial, "]")
      case KeyName => n.text
      case Key =>
        "\"" + (if n.children == [] then "" else EscapeInner(ToJson(n.children[0]))) + Unless(n.isPartial, "\":")
      case KeyValue => Chained(n.children)
      case Dict => "{" + Separated(n.children) + Unless(n.isPartial, "}")
      case Value => if n.children == [] then "" else ToJson(n.children[0])
      case OtherRule => ""
  }

  function Unless(partial: bool, close: string): string {
    if partial then "" else close
  }

  function Separated(cs: seq<Node>): string
    decreases cs, 0
  {
    if cs == [] then ""
    else ToJson(cs[0]) + (if |cs| == 1 then "" else "," + Separated(cs[1..]))
  }

  function Chained(cs: seq<Node>): string
    decreases cs, 0
  {
    if cs == [] then "" else ToJson(cs[0]) + Chained(cs[1..])
  }

  // ----- Streaming -----

  /** Rules that print the text of their node, whatever stands below it. */
  predicate PrintsText(rule: Rule) {
    rule == Number || rule == Bool || rule == Null || rule == StringContent || rule == KeyName
  }

  /** Key names and string contents end where the input ends or a delimiter may begin, so
      they are not partial and still grow. */
  predicate MayGrow(n: Node) {
    n.isPartial || n.rule == KeyName || n.rule == StringContent
  }

  /** `c` is what `p` may have become after more input: nodes grow along the last child;
      what stands before it stays. A node that has no text or no rule of its own prints
      nothing, and may become anything. */
  ghost predicate Extends(p: Node, c: Node)
    decreases p, 1
  {
    || p == c
    || p.text == ""
    || p.rule == OtherRule
    || (&& MayGrow(p) && p.rule == c.rule && p.text <= c.text
        && (PrintsText(p.rule) || ChildrenExtend(p.children, c.children)))
  }

  ghost predicate ChildrenExtend(ps: seq<Node>, cs: seq<Node>)
    decreases ps, 0
  {
    ps == [] || (cs != [] &&
                 if |ps| == 1 then Extends(ps[0], cs[0]) else ps[0] == cs[0] && ChildrenExtend(ps[1..], cs[1..]))
  }

  lemma {:induction false} ExtendsTransitive(a: Node, b: Node, c: Node)
    requires Extends(a, b) && Extends(b, c)
    ensures Extends(a, c)
    decreases a, 1
  {
    if a != b && b != c && a.text != "" && a.rule != OtherRule && !PrintsText(a.rule) {
      ChildrenExtendTransitive(a.children, b.children, c.children);
    }
  }

  lemma {:induction false} ChildrenExtendTransitive(a: seq<Node>, b: seq<Node>, c: seq<Node>)
    requires ChildrenExtend(a, b) && ChildrenExtend(b, c)
    ensures ChildrenExtend(a, c)
    decreases a, 0
  {
    if |a| == 1 {
      assert Extends(b[0], c[0]);
      ExtendsTransitive(a[0], b[0], c[0]);
    } else if |a| > 1 {
      assert b[1..] != [];
      ChildrenExtendTransitive(a[1..], b[1..], c[1..]);
    }
  }

  /** A cut inside a key name: the name is no partial node, its key is. */
  lemma KeyNameGrows()
    ensures Extends(Node(Key, "na", true, [Node(KeyName, "na", false, [])]),
                    Node(Key, "name:", false, [Node(KeyName, "name", false, [])]))
  {
    assert Extends(Node(KeyName, "na", false, []), Node(KeyName, "name", false, []));
  }

  /** The text printed for a partial tree is a prefix of the text printed for any tree it
      may grow into. */
  lemma {:induction false} PrintedTextIsKept(p: Node, c: Node)
    requires Extends(p, c)
    ensures ToJson(p) <= ToJson(c)
    decreases p, 1
  {
    if p != c && p.text != "" && p.rule != OtherRule {
      var ps, cs := p.children, c.children;
      match p.rule
      case Number =>
      case Bool =>
      case Null =>
      case StringContent =>
        EscapeInnerIsEscape(p.text);
        EscapeInnerIsEscape(c.text);
        EscapeMonotone(p.text, c.text);
      case String =>
        if ps != [] {
          FirstChildKept(ps, cs);
          PrefixCancel("\"", ToJson(ps[0]), ToJson(cs[0]) + Unless(c.isPartial, "\""));
          assert ToJson(ps[0]) + "" == ToJson(ps[0]);
        }
      case Array =>
        SeparatedKept(ps, cs);
        PrefixCancel("[", Separated(ps), Separated(cs) + Unless(c.isPartial, "]"));
        Ends("[", Separated(ps), Separated(cs), Unless(c.isPartial, "]"));
      case KeyName =>
      case Key =>
        if ps != [] {
          FirstChildKept(ps, cs);
          EscapeInnerIsEscape(ToJson(ps[0]));
          EscapeInnerIsEscape(ToJson(cs[0]));
          EscapeMonotone(ToJson(ps[0]), ToJson(cs[0]));
          Ends("\"", Escape(ToJson(ps[0])), Escape(ToJson(cs[0])), Unless(c.isPartial, "\":"));
        }
      case KeyValue =>
        ChainedKept(ps, cs);
      case Dict =>
        SeparatedKept(ps, cs);
        Ends("{", Separated(ps), Separated(cs), Unless(c.isPartial, "}"));
      case Value =>
        if ps != [] {
          FirstChildKept(ps, cs);
        }
    }
  }

  lemma Ends(open: string, p: string, c: string, close: string)
    requires p <= c
    ensures open + p + "" <= open + c + close
  {
  }

  lemma {:induction false} FirstChildKept(ps: seq<Node>, cs: seq<Node>)
    requires ps != [] && ChildrenExtend(ps, cs)
    ensures ToJson(ps[0]) <= ToJson(cs[0])
    decreases ps, 0
  {
    if |ps| == 1 {
      PrintedTextIsKept(ps[0], cs[0]);
    }
  }

  lemma {:induction false} SeparatedKept(ps: seq<Node>, cs: seq<Node>)
    requires ChildrenExtend(ps, cs)
    ensures Separated(ps) <= Separated(cs)
    decreases ps, 0
  {
    if |ps| == 1 {
      PrintedTextIsKept(ps[0], cs[0]);
    } else if |ps| > 1 {
      SeparatedKept(ps[1..], cs[1..]);
      PrefixCancel(",", Separated(ps[1..]), Separated(cs[1..]));
      PrefixCancel(ToJson(ps[0]), "," + Separated(ps[1..]), "," + Separated(cs[1..]));
      assert |cs| > 1;
    }
  }

  lemma {:induction false} ChainedKept(ps: seq<Node>, cs: seq<Node>)
    requires ChildrenExtend(ps, cs)
    ensures Chained(ps) <= Chained(cs)
    decreases ps, 0
  {
    if |ps| == 1 {
      PrintedTextIsKept(ps[0], cs[0]);
      assert Chained(ps[1..]) == "";
      assert ToJson(ps[0]) + "" == ToJson(ps[0]);
    } else if |ps| > 1 {
      ChainedKept(ps[1..], cs[1..]);
      PrefixCancel(ToJson(ps[0]), Chained(ps[1..]), Chained(cs[1..]));
    }
  }

  // ----- Complete trees -----

  /** A finished tree of the grammar: nothing partial, every string has its content node,
      and scalars hold no quotes or braces. */
  ghost predicate Complete(n: Node)
    decreases n, 1
  {
    && !n.isPartial
    && match n.rule
       case Number => Plain(n.text)
       case Bool => Plain(n.text)
       case Null => Plain(n.text)
       case String => n.children != [] && n.children[0].rule == StringContent
       case Array => AllComplete(n.children)
       case Key => true
       case KeyValue => AllComplete(n.children)
       case Dict => AllComplete(n.children)
       case Value => n.children != [] ==> Complete(n.children[0])
       case OtherRule => true
       case StringContent => false
       case KeyName => false
  }

  ghost predicate AllComplete(cs: seq<Node>)
    decreases cs, 0
  {
    cs == [] || (Complete(cs[0]) && AllComplete(cs[1..]))
  }

  predicate Plain(s: string) {
    '"' !in s && '{' !in s && '}' !in s
  }

  /** A complete tree prints text that the brace counter leaves as it found it: outside
      strings, at the depth it started from. */
  lemma {:induction false} CompletePrintsClosed(n: Node)
    requires Complete(n)
    ensures Closed(ToJson(n))
    decreases n, 1
  {
    if n.text != "" {
      match n.rule
      case Number => PlainClosed(n.text);
      case Bool => PlainClosed(n.text);
      case Null => PlainClosed(n.text);
      case String =>
        var inner := n.children[0].text;
        EscapeInnerIsEscape(inner);
        DumpClosed(inner);
        assert "\"" + (Escape(inner) + "\"") == Dump(inner);
      case Array =>
        SeparatedClosed(n.children);
        InBrackets(Separated(n.children));
      case Key => KeyClosed(if n.children == [] then "" else ToJson(n.children[0]));
      case KeyValue => ChainedClosed(n.children);
      case Dict =>
        SeparatedClosed(n.children);
        BracesAround(Separated(n.children));
      case Value =>
        if n.children != [] {
          CompletePrintsClosed(n.children[0]);
        }
      case OtherRule =>
    }
  }

  lemma InBrackets(s: string)
    requires Closed(s)
    ensures Closed("[" + s + "]")
  {
    PlainClosed("[");
    PlainClosed("]");
    ClosedAppend("[", s);
    ClosedAppend("[" + s, "]");
  }

  lemma KeyClosed(name: string)
    ensures Closed("\"" + EscapeInner(name) + "\":")
    ensures Closed("\"" + "" + "\":")
  {
    KeyTextClosed(name);
    KeyTextClosed("");
  }

  lemma KeyTextClosed(name: string)
    ensures Closed("\"" + EscapeInner(name) + "\":")
  {
    EscapeInnerIsEscape(name);
    DumpClosed(name);
    PlainClosed(":");
    ClosedAppend(Dump(name), ":");
    assert Dump(name) + ":" == "\"" + Escape(name) + "\":";
  }

  lemma CommaThen(s: string)
    requires Closed(s)
    ensures Closed("," + s)
  {
    PlainClosed(",");
    ClosedAppend(",", s);
  }

  lemma {:induction false} SeparatedClosed(cs: seq<Node>)
    requires AllComplete(cs)
    ensures Closed(Separated(cs))
    decreases cs, 0
  {
    if cs != [] {
      CompletePrintsClosed(cs[0]);
      if |cs| == 1 {
        assert ToJson(cs[0]) + "" == ToJson(cs[0]);
      } else {
        SeparatedClosed(cs[1..]);
        CommaThen(Separated(cs[1..]));
        ClosedAppend(ToJson(cs[0]), "," + Separated(cs[1..]));
      }
    }
  }

  lemma {:induction false} ChainedClosed(cs: seq<Node>)
    requires AllComplete(cs)
    ensures Closed(Chained(cs))
    decreases cs, 0
  {
    if cs != [] {
      CompletePrintsClosed(cs[0]);
      ChainedClosed(cs[1..]);
      ClosedAppend(ToJson(cs[0]), Chained(cs[1..]));
    }
  }

  /** A finished string node without its content child prints only the opening quote. */
  lemma ChildlessStringStaysOpen()
    ensures !Closed(ToJson(Node(String, "s", false, [])))
  {
    assert Scan("\"", START) == Scanner(0, true, false);
  }
}
