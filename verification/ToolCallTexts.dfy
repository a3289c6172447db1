/**
 What becomes of the texts of a tool in JSON format: its id without the quotes, its
 arguments as they were given, closed where the model stopped short.
 */
module ToolCallTexts {
  import opened Text
  import opened ToolCallMapper
  import opened ToolCallTraces
  import JsonBalance
  import JsonReader
  import JsonText
  import Trim

  // ----- The id -----

  lemma SideOf(s: Side, a: seq<Node>, n: Node, b: seq<Node>)
    requires forall m <- b :: m.tag != ToolId
    ensures SideAll(s, a + [n] + b).id == SideStep(SideAll(s, a), n).id
  {
    FoldAppend(a + [n], b, FRESH, s);
    FoldAppend(a, [n], FRESH, s);
    assert [n][1..] == [];
    IdStays(SideStep(SideAll(s, a), n), b);
  }

  lemma {:induction false} IdStays(s: Side, b: seq<Node>)
    requires forall m <- b :: m.tag != ToolId
    ensures SideAll(s, b).id == s.id
    decreases |b|
  {
    if b != [] {
      IdStays(SideStep(s, b[0]), b[1..]);
    }
  }

  lemma AllInert(a: seq<Node>, n: Node, b: seq<Node>)
    requires (forall m <- a :: Inert(m)) && Inert(n) && (forall m <- b :: Inert(m))
    ensures forall m <- a + [n] + b :: Inert(m)
  {
  }

  lemma LastCallId(base: seq<ToolCall>, name: string, s: Side, w: Writer)
    ensures var calls := Streaming(base, name, s, w).calls;
            |calls| == |base| + 1 && calls[|base|].id == s.id
  {
  }

  lemma CallHasId(st: State, nodes: seq<Node>, i: nat, name: string)
    requires st.WellFormed() && i <= |nodes| && Trim.Trailing(name, -1) != ""
    requires forall n <- nodes :: Inert(n)
    ensures var calls := Run(st, ToolTrace(nodes, i, name)).calls;
            |calls| == |st.calls| + 1
            && calls[|st.calls|].id == SideAll(Side(st.content, st.reasoning, ""), nodes).id
  {
    ToolTraceRun(st, nodes, i, name);
    LastCallId(st.calls, Trim.Trailing(name, -1), SideAll(Side(st.content, st.reasoning, ""), nodes),
               FinalWriter(nodes, i));
  }

  /** The last id node gives the call its id: the text without trailing blanks and, if it
      stands in quotes, without the quotes. */
  lemma IdOfCall(st: State, a: seq<Node>, text: string, b: seq<Node>, i: nat, name: string, t: string)
    requires st.WellFormed() && i <= |a + [Node(ToolId, text)] + b| && Trim.Trailing(name, -1) != ""
    requires (forall m <- a :: Inert(m)) && (forall m <- b :: Inert(m) && m.tag != ToolId)
    ensures var calls := Run(st, ToolTrace(a + [Node(ToolId, text)] + b, i, name)).calls;
            var given := Trim.Trailing(text, -1);
            && |calls| == |st.calls| + 1
            && (given == "\"" + t + "\"" ==> calls[|st.calls|].id == t)
            && ((forall u: string :: given != "\"" + u + "\"") ==> calls[|st.calls|].id == given)
  {
    AllInert(a, Node(ToolId, text), b);
    CallHasId(st, a + [Node(ToolId, text)] + b, i, name);
    SideOf(Side(st.content, st.reasoning, ""), a, Node(ToolId, text), b);
    QuotesStripped(Trim.Trailing(text, -1), t);
  }

  // ----- Braces -----

  lemma {:induction false} EscapedInside(s: string, st: JsonText.Scanner)
    requires st.escaped ==> st.inString
    ensures JsonText.Scan(s, st).escaped ==> JsonText.Scan(s, st).inString
    decreases s
  {
    if s != "" {
      EscapedInside(s[1..], JsonText.ScanChar(st, s[0]));
    }
  }

  lemma {:induction false} BracesScanned(n: nat, st: JsonText.Scanner)
    requires st.escaped ==> st.inString
    ensures JsonText.Scan(Repeat('}', n), st).depth == if st.inString then st.depth else st.depth - n
  {
    if n > 0 {
      assert Repeat('}', n)[1..] == Repeat('}', n - 1);
      BracesScanned(n - 1, JsonText.ScanChar(st, '}'));
    }
  }

  /** Only closing braces are added, one for each brace left open, and the counter is then
      back at 0 exactly unless the text stops inside a string. */
  lemma BracesClosed(s: string)
    ensures s <= CloseBraces(s) && forall i :: |s| <= i < |CloseBraces(s)| ==> CloseBraces(s)[i] == '}'
    ensures JsonText.BraceDepth(s) <= 0 ==> CloseBraces(s) == s
    ensures JsonText.BraceDepth(s) > 0 ==> |CloseBraces(s)| == |s| + JsonText.BraceDepth(s)
    ensures JsonText.BraceDepth(s) > 0 ==>
              (JsonText.BraceDepth(CloseBraces(s)) == 0 <==> !JsonText.Scan(s, JsonText.START).inString)
  {
    var d := JsonText.BraceDepth(s);
    assert s + Repeat('}', 0) == s;
    if d > 0 {
      EscapedInside(s, JsonText.START);
      JsonText.ScanAppend(s, Repeat('}', d), JsonText.START);
      BracesScanned(d, JsonText.Scan(s, JsonText.START));
    }
  }

  // ----- Arguments in JSON format -----

  /** Nodes that neither name the tool nor write into its arguments. */
  predicate Aside(n: Node) {
    n.tag == Content || n.tag == Reasoning || n.tag == ToolId || n.tag == OtherTag
  }

  lemma {:induction false} AsideWrites(w: Writer, a: seq<Node>)
    requires forall m <- a :: Aside(m)
    ensures WriteAll(w, a) == w
    decreases |a|
  {
    if a != [] {
      assert Aside(a[0]);
      AsideWrites(w, a[1..]);
    }
  }

  /** What one node writes among others that write nothing. */
  lemma OneWrites(w: Writer, a: seq<Node>, n: Node, b: seq<Node>)
    requires (forall m <- a :: Aside(m)) && (forall m <- b :: Aside(m))
    ensures WriteAll(w, a + [n] + b) == Write(w, n)
  {
    FoldAppend(a + [n], b, w, Side("", "", ""));
    FoldAppend(a, [n], w, Side("", "", ""));
    AsideWrites(w, a);
    WriteFirst(w, n, []);
    assert [n] + [] == [n];
    AsideWrites(Write(w, n), b);
  }

  lemma NoValueFirst(nodes: seq<Node>)
    requires forall m <- nodes :: Aside(m) || m.tag == ToolArgs
    ensures !ValueBeforeKey(nodes)
    decreases |nodes|
  {
    if nodes != [] {
      assert Aside(nodes[0]) || nodes[0].tag == ToolArgs;
      NoValueFirst(nodes[1..]);
    }
  }

  lemma WholeFirst(text: string)
    ensures var t := Trim.Trailing(text, -1);
            Write(WithBrace(FRESH), Node(ToolArgs, text))
            == Writer(if t != "" && t[0] == '{' then t else "{", 0, false)
  {
  }

  lemma Classes(a: seq<Node>, text: string, b: seq<Node>)
    requires (forall m <- a :: Aside(m)) && (forall m <- b :: Aside(m))
    ensures var nodes := a + [Node(ToolArgs, text)] + b;
            forall m <- nodes :: Inert(m) && (Aside(m) || m.tag == ToolArgs)
  {
  }

  lemma JsonFinalWriter(a: seq<Node>, text: string, b: seq<Node>)
    requires (forall m <- a :: Aside(m)) && (forall m <- b :: Aside(m))
    ensures var t := Trim.Trailing(text, -1);
            FinalWriter(a + [Node(ToolArgs, text)] + b, 0).text
            == CloseBraces(if t != "" && t[0] == '{' then t else "{")
  {
    var nodes, t := a + [Node(ToolArgs, text)] + b, Trim.Trailing(text, -1);
    assert nodes[..0] == [] && nodes[0..] == nodes;
    OneWrites(WithBrace(FRESH), a, Node(ToolArgs, text), b);
    WholeFirst(text);
    assert t + "" == t && "{" + "" == "{";
  }

  lemma LoneBrace()
    ensures CloseBraces("{") == "{}"
  {
    assert JsonText.Scan("{", JsonText.START) == JsonText.Scanner(1, false, false);
    assert Repeat('}', 1) == "}";
  }

  lemma CallArguments(st: State, a: seq<Node>, text: string, b: seq<Node>, i: nat, name: string)
    requires st.WellFormed() && i <= |a + [Node(ToolArgs, text)] + b| && Trim.Trailing(name, -1) != ""
    requires (forall m <- a :: Aside(m)) && (forall m <- b :: Aside(m))
    ensures var calls := Run(st, ToolTrace(a + [Node(ToolArgs, text)] + b, i, name)).calls;
            |calls| == |st.calls| + 1
            && calls[|st.calls|].arguments == FinalWriter(a + [Node(ToolArgs, text)] + b, 0).text
  {
    var nodes := a + [Node(ToolArgs, text)] + b;
    Classes(a, text, b);
    NoValueFirst(nodes[..i]);
    NamePlaceIndependent(st, nodes, i, name);
    ToolTraceRun(st, nodes, 0, name);
  }

  /** Arguments that arrive whole: an object keeps its text, up to trailing blanks, with its
      missing braces; nothing is added to JSON; anything but an object becomes `{}`. */
  lemma WholeArgumentsExact(st: State, a: seq<Node>, text: string, b: seq<Node>, i: nat, name: string)
    requires st.WellFormed() && i <= |a + [Node(ToolArgs, text)] + b| && Trim.Trailing(name, -1) != ""
    requires (forall m <- a :: Aside(m)) && (forall m <- b :: Aside(m))
    ensures var calls := Run(st, ToolTrace(a + [Node(ToolArgs, text)] + b, i, name)).calls;
            var given := Trim.Trailing(text, -1);
            && |calls| == |st.calls| + 1
            && var arguments := calls[|st.calls|].arguments;
               if given != "" && given[0] == '{'
               then arguments == CloseBraces(given) && (JsonReader.IsJson(given) ==> arguments == given)
               else arguments == "{}"
  {
    var given := Trim.Trailing(text, -1);
    CallArguments(st, a, text, b, i, name);
    JsonFinalWriter(a, text, b);
    BracesClosed(given);
    LoneBrace();
    if JsonReader.IsJson(given) {
      JsonBalance.JsonIsClosed(given);
    }
  }
}
