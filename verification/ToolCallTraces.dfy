/**
 What whole traces of the tool-call mapper guarantee: which calls appear, that the
 place of the name among a tool's nodes does not matter (and exactly when it does),
 and that tagged arguments become exactly the JSON object they spell.
 */
module ToolCallTraces {
  import opened Text
  import opened JsonText
  import opened ToolCallMapper
  import QuoteNormalizer
  import Trim

  // ----- Every reachable state -----

  ghost predicate Invariant(st: State) {
    st.WellFormed() && st.PendingUnnamed()
  }

  lemma {:induction false} RunAppend(st: State, a: seq<Node>, b: seq<Node>)
    requires st.WellFormed()
    ensures Run(st, a + b) == Run(Run(st, a), b)
    decreases |a|
  {
    if a == [] {
      assert a + b == b;
    } else {
      assert (a + b)[0] == a[0] && (a + b)[1..] == a[1..] + b;
      NextWellFormed(st, a[0]);
      RunAppend(Next(st, a[0]), a[1..], b);
    }
  }

  /** How many calls a trace emits: one for each open that meets a name before the next
      open or close. */
  function Emitted(nodes: seq<Node>, waiting: bool): nat {
    if nodes == [] then 0
    else
      match nodes[0].tag
      case ToolOpen => Emitted(nodes[1..], true)
      case ToolClose => Emitted(nodes[1..], false)
      case ToolName => (if waiting then 1 else 0) + Emitted(nodes[1..], false)
      case _ => Emitted(nodes[1..], waiting)
  }

  function Opens(nodes: seq<Node>): nat {
    if nodes == [] then 0 else (if nodes[0].tag == ToolOpen then 1 else 0) + Opens(nodes[1..])
  }

  /** The calls that no later node can change. */
  function Settled(st: State): seq<ToolCall>
    requires st.WellFormed()
  {
    if st.current == LastCall then st.calls[..|st.calls| - 1] else st.calls
  }

  function CallNames(st: State): set<string> {
    set c <- st.calls :: c.name
  }

  function GivenNames(nodes: seq<Node>): set<string> {
    set n <- nodes | n.tag == ToolName :: Trim.Trailing(n.text, -1)
  }

  lemma StepFacts(st: State, node: Node)
    requires Invariant(st)
    ensures var st' := Next(st, node);
            && Invariant(st')
            && Settled(st) <= Settled(st')
            && |st'.calls| == |st.calls| + (if node.tag == ToolName && st.pending.Some? then 1 else 0)
            && (st'.pending.Some? <==>
                node.tag == ToolOpen || (st.pending.Some? && node.tag != ToolName && node.tag != ToolClose))
  {
    NextWellFormed(st, node);
  }

  lemma SetCurrentNames(st: State, t: ToolCall)
    requires st.WellFormed()
    ensures CallNames(st.SetCurrent(t)) <= CallNames(st) + {t.name}
  {
  }

  lemma StepNames(st: State, node: Node)
    requires Invariant(st)
    ensures CallNames(Next(st, node)) <= CallNames(st) + GivenNames([node])
  {
    assert node in [node];
    if st.current == LastCall {
      assert st.Current() in st.calls;
      assert st.Current().name in CallNames(st);
      forall t: ToolCall ensures CallNames(st.SetCurrent(t)) <= CallNames(st) + {t.name} {
        SetCurrentNames(st, t);
      }
    }
  }

  /** Over any trace: the invariant holds, exactly `Emitted` calls are added, and the
      settled ones never change again. */
  lemma {:induction false} RunFacts(st: State, nodes: seq<Node>)
    requires Invariant(st)
    ensures var st' := Run(st, nodes);
            && Invariant(st')
            && Settled(st) <= Settled(st')
            && |st'.calls| == |st.calls| + Emitted(nodes, st.pending.Some?)
    decreases |nodes|
  {
    if nodes != [] {
      StepFacts(st, nodes[0]);
      RunFacts(Next(st, nodes[0]), nodes[1..]);
    }
  }

  /** Every emitted call carries a name that some name node gave. */
  lemma {:induction false} RunNames(st: State, nodes: seq<Node>)
    requires Invariant(st)
    ensures CallNames(Run(st, nodes)) <= CallNames(st) + GivenNames(nodes)
    decreases |nodes|
  {
    if nodes != [] {
      StepFacts(st, nodes[0]);
      StepNames(st, nodes[0]);
      RunNames(Next(st, nodes[0]), nodes[1..]);
      assert GivenNames(nodes) == GivenNames([nodes[0]]) + GivenNames(nodes[1..]) by {
        assert nodes == [nodes[0]] + nodes[1..];
      }
    }
  }

  lemma {:induction false} AtMostOneCallPerOpen(nodes: seq<Node>, waiting: bool)
    ensures Emitted(nodes, waiting) <= Opens(nodes) + (if waiting then 1 else 0)
  {
    if nodes != [] {
      AtMostOneCallPerOpen(nodes[1..], true);
      AtMostOneCallPerOpen(nodes[1..], false);
    }
  }

  /** The final flush of `from_ast` never has anything to emit. */
  lemma FlushNeverFires(nodes: seq<Node>)
    ensures Flushed(Run(INITIAL, nodes)).calls == Run(INITIAL, nodes).calls
    ensures |Run(INITIAL, nodes).calls| == Emitted(nodes, false) <= Opens(nodes)
  {
    RunFacts(INITIAL, nodes);
    AtMostOneCallPerOpen(nodes, false);
  }

  // ----- One tool: the same writer before and after the name -----

  predicate Inert(node: Node) {
    node.tag != ToolOpen && node.tag != ToolName && node.tag != ToolClose
  }

  /** What nodes other than argument nodes change while a tool is open. */
  datatype Side = Side(content: string, reasoning: string, id: string)

  function SideStep(s: Side, node: Node): Side {
    match node.tag
    case Content => s.(content := s.content + node.text)
    case Reasoning => s.(reasoning := s.reasoning + node.text)
    case ToolId => s.(id := StripQuotes(Trim.Trailing(node.text, -1)))
    case _ => s
  }

  function SideAll(s: Side, nodes: seq<Node>): Side
    decreases |nodes|
  {
    if nodes == [] then s else SideAll(SideStep(s, nodes[0]), nodes[1..])
  }

  function WriteAll(w: Writer, nodes: seq<Node>): Writer
    decreases |nodes|
  {
    if nodes == [] then w else WriteAll(Write(w, nodes[0]), nodes[1..])
  }

  /** The tool is open and unnamed: text goes to the buffer. */
  function Collecting(base: seq<ToolCall>, s: Side, w: Writer): State {
    State(s.content, s.reasoning, base, Some(ToolCall("", "", s.id)), Pending, w.argCount, w.quotePending, w.text)
  }

  /** The tool is named and already among the results. */
  function Streaming(base: seq<ToolCall>, name: string, s: Side, w: Writer): State {
    State(s.content, s.reasoning, base + [ToolCall(name, w.text, s.id)], None, LastCall, w.argCount, w.quotePending, "")
  }

  lemma {:induction false} CollectingRun(base: seq<ToolCall>, s: Side, w: Writer, nodes: seq<Node>)
    requires forall n <- nodes :: Inert(n)
    ensures Run(Collecting(base, s, w), nodes) == Collecting(base, SideAll(s, nodes), WriteAll(w, nodes))
    decreases |nodes|
  {
    if nodes != [] {
      var n := nodes[0];
      assert Inert(n);
      assert Next(Collecting(base, s, w), n) == Collecting(base, SideStep(s, n), Write(w, n));
      CollectingRun(base, SideStep(s, n), Write(w, n), nodes[1..]);
    }
  }

  lemma StreamingStep(base: seq<ToolCall>, name: string, s: Side, w: Writer, n: Node)
    requires name != "" && Inert(n)
    ensures Next(Streaming(base, name, s, w), n) == Streaming(base, name, SideStep(s, n), Write(w, n))
  {
    var st := Streaming(base, name, s, w);
    var last := |base|;
    assert forall t: ToolCall :: st.calls[last := t] == base + [t];
  }

  lemma {:induction false} StreamingRun(base: seq<ToolCall>, name: string, s: Side, w: Writer, nodes: seq<Node>)
    requires name != "" && forall n <- nodes :: Inert(n)
    ensures Run(Streaming(base, name, s, w), nodes) == Streaming(base, name, SideAll(s, nodes), WriteAll(w, nodes))
    decreases |nodes|
  {
    if nodes != [] {
      var n := nodes[0];
      assert Inert(n);
      StreamingStep(base, name, s, w, n);
      StreamingRun(base, name, SideStep(s, n), Write(w, n), nodes[1..]);
    }
  }

  const FRESH := Writer("", 0, false)

  function WithBrace(w: Writer): Writer {
    if w.text == "" then w.(text := "{") else w
  }

  function CloseWriter(w: Writer): Writer {
    Writer(CloseBraces(w.text + (if w.quotePending then "\"" else "")), w.argCount, false)
  }

  /** A whole tool whose name comes after the first `i` of its other nodes. */
  function ToolTrace(nodes: seq<Node>, i: nat, name: string): seq<Node>
    requires i <= |nodes|
  {
    [Node(ToolOpen, "")] + (nodes[..i] + ([Node(ToolName, name)] + (nodes[i..] + [Node(ToolClose, "")])))
  }

  function FinalWriter(nodes: seq<Node>, i: nat): Writer
    requires i <= |nodes|
  {
    CloseWriter(WriteAll(WithBrace(WriteAll(FRESH, nodes[..i])), nodes[i..]))
  }

  lemma {:induction false} FoldAppend(a: seq<Node>, b: seq<Node>, w: Writer, s: Side)
    ensures WriteAll(w, a + b) == WriteAll(WriteAll(w, a), b)
    ensures SideAll(s, a + b) == SideAll(SideAll(s, a), b)
    decreases |a|
  {
    if a == [] {
      assert a + b == b;
    } else {
      assert (a + b)[0] == a[0] && (a + b)[1..] == a[1..] + b;
      FoldAppend(a[1..], b, Write(w, a[0]), SideStep(s, a[0]));
    }
  }

  lemma NameStep(base: seq<ToolCall>, s: Side, w: Writer, text: string)
    requires Trim.Trailing(text, -1) != ""
    ensures Next(Collecting(base, s, w), Node(ToolName, text))
         == Streaming(base, Trim.Trailing(text, -1), s, WithBrace(w))
  {
  }

  lemma CloseStep(base: seq<ToolCall>, name: string, s: Side, w: Writer)
    requires name != ""
    ensures Next(Streaming(base, name, s, w), Node(ToolClose, "")) == Streaming(base, name, s, CloseWriter(w))
  {
    var t := ToolCall(name, CloseWriter(w).text, s.id);
    assert (base + [ToolCall(name, w.text, s.id)])[|base| := t] == base + [t];
  }

  lemma RunOne(st: State, n: Node, rest: seq<Node>)
    requires st.WellFormed()
    ensures Next(st, n).WellFormed() && Run(st, [n] + rest) == Run(Next(st, n), rest)
  {
    NextWellFormed(st, n);
    assert ([n] + rest)[1..] == rest;
  }

  lemma UpToName(st: State, a: seq<Node>, rest: seq<Node>)
    requires st.WellFormed() && forall n <- a :: Inert(n)
    ensures Run(st, [Node(ToolOpen, "")] + (a + rest))
         == Run(Collecting(st.calls, SideAll(Side(st.content, st.reasoning, ""), a), WriteAll(FRESH, a)), rest)
  {
    var s0 := Side(st.content, st.reasoning, "");
    RunOne(st, Node(ToolOpen, ""), a + rest);
    assert Next(st, Node(ToolOpen, "")) == Collecting(st.calls, s0, FRESH);
    RunAppend(Collecting(st.calls, s0, FRESH), a, rest);
    CollectingRun(st.calls, s0, FRESH, a);
  }

  lemma FromName(base: seq<ToolCall>, s: Side, w: Writer, name: string, b: seq<Node>)
    requires Trim.Trailing(name, -1) != "" && forall n <- b :: Inert(n)
    ensures Run(Collecting(base, s, w), [Node(ToolName, name)] + (b + [Node(ToolClose, "")]))
         == Streaming(base, Trim.Trailing(name, -1), SideAll(s, b), CloseWriter(WriteAll(WithBrace(w), b)))
  {
    var n, close := Trim.Trailing(name, -1), [Node(ToolClose, "")];
    RunOne(Collecting(base, s, w), Node(ToolName, name), b + close);
    NameStep(base, s, w, name);
    RunAppend(Streaming(base, n, s, WithBrace(w)), b, close);
    StreamingRun(base, n, s, WithBrace(w), b);
    CloseRun(base, n, SideAll(s, b), WriteAll(WithBrace(w), b));
  }

  lemma CloseRun(base: seq<ToolCall>, name: string, s: Side, w: Writer)
    requires name != ""
    ensures Run(Streaming(base, name, s, w), [Node(ToolClose, "")]) == Streaming(base, name, s, CloseWriter(w))
  {
    assert [Node(ToolClose, "")] == [Node(ToolClose, "")] + [];
    RunOne(Streaming(base, name, s, w), Node(ToolClose, ""), []);
    CloseStep(base, name, s, w);
  }

  /** The state after a whole tool, wherever its name stands. */
  lemma ToolTraceRun(st: State, nodes: seq<Node>, i: nat, name: string)
    requires st.WellFormed() && i <= |nodes|
    requires forall n <- nodes :: Inert(n)
    requires Trim.Trailing(name, -1) != ""
    ensures Run(st, ToolTrace(nodes, i, name))
         == Streaming(st.calls, Trim.Trailing(name, -1), SideAll(Side(st.content, st.reasoning, ""), nodes),
             FinalWriter(nodes, i))
  {
    TwoPartsRun(st, nodes[..i], nodes[i..], name);
    SideParts(Side(st.content, st.reasoning, ""), nodes, i);
  }

  lemma SideParts(s: Side, nodes: seq<Node>, i: nat)
    requires i <= |nodes|
    ensures SideAll(s, nodes) == SideAll(SideAll(s, nodes[..i]), nodes[i..])
  {
    assert nodes == nodes[..i] + nodes[i..];
    FoldAppend(nodes[..i], nodes[i..], FRESH, s);
  }

  lemma TwoPartsRun(st: State, a: seq<Node>, b: seq<Node>, name: string)
    requires st.WellFormed() && Trim.Trailing(name, -1) != ""
    requires (forall n <- a :: Inert(n)) && (forall n <- b :: Inert(n))
    ensures Run(st, [Node(ToolOpen, "")] + (a + ([Node(ToolName, name)] + (b + [Node(ToolClose, "")]))))
         == Streaming(st.calls, Trim.Trailing(name, -1), SideAll(SideAll(Side(st.content, st.reasoning, ""), a), b),
                      CloseWriter(WriteAll(WithBrace(WriteAll(FRESH, a)), b)))
  {
    UpToName(st, a, [Node(ToolName, name)] + (b + [Node(ToolClose, "")]));
    FromName(st.calls, SideAll(Side(st.content, st.reasoning, ""), a), WriteAll(FRESH, a), name, b);
  }

  // ----- Where the name may stand -----

  /** A JSON-format node that sets the whole argument text. */
  predicate SetsWhole(node: Node) {
    node.tag == ToolArgs && var t := Trim.Trailing(node.text, -1); t != "" && t[0] == '{'
  }

  predicate SetsWholeSomewhere(nodes: seq<Node>) {
    exists n <- nodes :: SetsWhole(n)
  }

  /** The first node that writes anything writes a value, with no key before it. */
  predicate ValueBeforeKey(nodes: seq<Node>) {
    nodes != [] &&
    if nodes[0].tag == ArgName || SetsWhole(nodes[0]) then false
    else WritesValue(nodes[0]) || ValueBeforeKey(nodes[1..])
  }

  function Braced(w: Writer): Writer {
    w.(text := "{" + w.text)
  }

  /** What a node that does not set the whole text adds to a text that is not empty. */
  function Added(n: Node, argCount: nat, quotePending: bool): string {
    match n.tag
    case ArgName => KeyEntry(argCount, n.text)
    case ArgStringValue =>
      if n.text == "" then "\"" else (if quotePending then "" else "\"") + JsonText.EscapeInner(n.text)
    case ArgValue => if n.text == "" then "" else QuoteNormalizer.Normalized(n.text)
    case ArgClose => if quotePending then "\"" else ""
    case _ => ""
  }

  lemma WriteAdds(w: Writer, n: Node)
    requires w.text != "" && !SetsWhole(n)
    ensures Write(w, n).text == w.text + Added(n, w.argCount, w.quotePending)
  {
    assert w.text + "" == w.text;
  }

  lemma WriteCounts(w: Writer, t: string, n: Node)
    ensures Write(w, n).argCount == Write(w.(text := t), n).argCount
    ensures Write(w, n).quotePending == Write(w.(text := t), n).quotePending
    ensures SetsWhole(n) ==> Write(w, n).text == Write(w.(text := t), n).text != ""
  {
  }

  lemma WriteBraced(w: Writer, n: Node)
    requires w.text != ""
    ensures Write(w, n).text != ""
    ensures Write(Braced(w), n) == if SetsWhole(n) then Write(w, n) else Braced(Write(w, n))
  {
    WriteCounts(w, "{" + w.text, n);
    if !SetsWhole(n) {
      WriteAdds(w, n);
      WriteAdds(Braced(w), n);
      Associative("{", w.text, Added(n, w.argCount, w.quotePending));
    }
  }

  lemma {:induction false} WriteAllBraced(w: Writer, nodes: seq<Node>)
    requires w.text != ""
    ensures WriteAll(w, nodes).text != ""
    ensures WriteAll(Braced(w), nodes)
         == if SetsWholeSomewhere(nodes) then WriteAll(w, nodes) else Braced(WriteAll(w, nodes))
    decreases |nodes|
  {
    if nodes != [] {
      WriteBraced(w, nodes[0]);
      WriteAllBraced(Write(w, nodes[0]), nodes[1..]);
      assert nodes == [nodes[0]] + nodes[1..];
    }
  }

  predicate WritesValue(n: Node) {
    n.tag == ArgStringValue || (n.tag == ArgValue && n.text != "")
  }

  lemma FirstKey(n: Node, count: nat)
    requires n.tag == ArgName || SetsWhole(n)
    ensures Write(Writer("", count, false), n) == Write(Writer("{", count, false), n)
    ensures Write(Writer("", count, false), n).text != ""
  {
  }

  lemma FirstValue(n: Node, count: nat)
    requires WritesValue(n)
    ensures Write(Writer("{", count, false), n) == Braced(Write(Writer("", count, false), n))
    ensures Write(Writer("", count, false), n).text != ""
  {
    var v := if n.tag == ArgValue then QuoteNormalizer.Normalized(n.text)
             else if n.text == "" then "\"" else "\"" + JsonText.EscapeInner(n.text);
    if n.tag == ArgValue {
      QuoteNormalizer.NormalizedNonEmpty(n.text);
    }
    assert forall t: string :: Write(Writer(t, count, false), n).text == t + v;
    EmptyLeft(v);
  }

  lemma EmptyLeft(v: string)
    ensures "" + v == v
  {
  }

  lemma NoWrite(n: Node, t: string, count: nat)
    requires n.tag != ArgName && !SetsWhole(n) && !WritesValue(n)
    ensures Write(Writer(t, count, false), n) == Writer(t, count, false)
  {
  }

  /** Starting from an empty buffer or from a brace: what the first nodes leave behind. */
  lemma {:induction false} StartBraced(nodes: seq<Node>, count: nat)
    ensures var w, b := WriteAll(Writer("", count, false), nodes), WriteAll(Writer("{", count, false), nodes);
            if ValueBeforeKey(nodes) && !SetsWholeSomewhere(nodes) then b == Braced(w) && w.text != ""
            else b == WithBrace(w)
  {
    if nodes != [] {
      var n := nodes[0];
      var w := Write(Writer("", count, false), n);
      assert nodes == [n] + nodes[1..];
      if n.tag == ArgName || SetsWhole(n) {
        FirstKey(n, count);
        WriteAllBraced(w, nodes[1..]);
      } else if WritesValue(n) {
        FirstValue(n, count);
        WriteAllBraced(w, nodes[1..]);
      } else {
        NoWrite(n, "", count);
        NoWrite(n, "{", count);
        StartBraced(nodes[1..], count);
      }
    }
  }

  lemma CloseBracedDiffers(w: Writer)
    ensures CloseWriter(Braced(w)).text != CloseWriter(w).text
  {
    var t := w.text + (if w.quotePending then "\"" else "");
    assert Braced(w).text + (if w.quotePending then "\"" else "") == "{" + t;
    ScanAppend("{", t, START);
    assert Scan("{", START) == Scanner(1, false, false);
    ScanShift(t, START, 1);
    assert BraceDepth("{" + t) == BraceDepth(t) + 1;
    assert |CloseBraces("{" + t)| != |CloseBraces(t)|;
  }

  /** Giving the name after `i` nodes leaves the same finished call as giving it first,
      exactly unless a value came before any key and nothing replaces the whole text. */
  lemma NamePlaceIndependent(st: State, nodes: seq<Node>, i: nat, name: string)
    requires st.WellFormed() && i <= |nodes|
    requires forall n <- nodes :: Inert(n)
    requires Trim.Trailing(name, -1) != ""
    ensures Run(st, ToolTrace(nodes, i, name)) == Run(st, ToolTrace(nodes, 0, name))
            <==> (ValueBeforeKey(nodes[..i]) ==> SetsWholeSomewhere(nodes))
  {
    ToolTraceRun(st, nodes, i, name);
    ToolTraceRun(st, nodes, 0, name);
    FinalWriters(nodes, i);
    var n, s := Trim.Trailing(name, -1), SideAll(Side(st.content, st.reasoning, ""), nodes);
    StreamingInjective(st.calls, n, s, FinalWriter(nodes, i), FinalWriter(nodes, 0));
  }

  /** A bare value in front of the name loses the opening brace it has behind it. */
  lemma NameAfterValueDiffers()
    ensures var nodes := [Node(ArgValue, "1")];
            Run(INITIAL, ToolTrace(nodes, 1, "f")) != Run(INITIAL, ToolTrace(nodes, 0, "f"))
  {
    var nodes := [Node(ArgValue, "1")];
    assert nodes[..1] == nodes;
    assert Trim.Trailing("f", -1) == "f";
    NamePlaceIndependent(INITIAL, nodes, 1, "f");
  }

  lemma StreamingInjective(base: seq<ToolCall>, name: string, s: Side, v: Writer, w: Writer)
    ensures Streaming(base, name, s, v) == Streaming(base, name, s, w) <==> v == w
  {
    assert Streaming(base, name, s, v).calls[|base|].arguments == v.text;
    assert Streaming(base, name, s, w).calls[|base|].arguments == w.text;
  }

  lemma FinalWriters(nodes: seq<Node>, i: nat)
    requires i <= |nodes|
    ensures FinalWriter(nodes, i) == FinalWriter(nodes, 0)
       <==> (ValueBeforeKey(nodes[..i]) ==> SetsWholeSomewhere(nodes))
  {
    var a, b := nodes[..i], nodes[i..];
    assert nodes == a + b && nodes[..0] == [] && nodes[0..] == nodes;
    assert SetsWholeSomewhere(nodes) <==> SetsWholeSomewhere(a) || SetsWholeSomewhere(b);
    var w := WriteAll(FRESH, a);
    StartBraced(a, 0);
    FoldAppend(a, b, Writer("{", 0, false), Side("", "", ""));
    if ValueBeforeKey(a) && !SetsWholeSomewhere(a) {
      WriteAllBraced(w, b);
      CloseBracedDiffers(WriteAll(w, b));
    }
  }

  // ----- Tagged arguments -----

  datatype Value = Str(s: string) | Raw(s: string)

  /** One tagged argument; `open` and `close` are the texts of its delimiter nodes. */
  datatype Argument = Argument(key: string, value: Value, open: string, close: string)

  function ArgumentNodes(a: Argument): seq<Node> {
    [Node(ArgOpen, a.open), Node(ArgName, a.key),
     Node(if a.value.Str? then ArgStringValue else ArgValue, a.value.s), Node(ArgClose, a.close)]
  }

  function AllNodes(args: seq<Argument>): seq<Node> {
    if args == [] then [] else ArgumentNodes(args[0]) + AllNodes(args[1..])
  }

  function ValueText(v: Value): string {
    if v.Str? then Dump(v.s) else QuoteNormalizer.Normalized(v.s)
  }

  function Member(a: Argument): string {
    Dump(Trim.Both(a.key)) + ":" + ValueText(a.value)
  }

  function Members(args: seq<Argument>): seq<string> {
    if args == [] then [] else [Member(args[0])] + Members(args[1..])
  }

  lemma WriteFirst(w: Writer, n: Node, rest: seq<Node>)
    ensures WriteAll(w, [n] + rest) == WriteAll(Write(w, n), rest)
  {
    assert ([n] + rest)[1..] == rest;
  }

  lemma KeyWrites(w: Writer, key: string)
    requires w.text != ""
    ensures Write(w, Node(ArgName, key))
         == Writer(w.text + ((if w.argCount > 0 then "," else "") + (Dump(Trim.Both(key)) + ":")), w.argCount + 1,
             w.quotePending)
  {
    KeyAdds(w, key);
    Associative(if w.argCount > 0 then "," else "", Dump(Trim.Both(key)), ":");
  }

  lemma KeyAdds(w: Writer, key: string)
    requires w.text != ""
    ensures Write(w, Node(ArgName, key)) == Writer(w.text + KeyEntry(w.argCount, key), w.argCount + 1, w.quotePending)
  {
  }

  lemma StringWrites(t: string, count: nat, s: string, close: string)
    ensures Write(Write(Writer(t, count, false), Node(ArgStringValue, s)), Node(ArgClose, close))
         == Writer(t + Dump(s), count, false)
  {
    if s == "" {
      Associative(t, "\"", "\"");
    } else {
      EscapeInnerIsEscape(s);
      QuotedBehind(t, Escape(s));
    }
  }

  lemma QuotedBehind(t: string, inner: string)
    ensures (t + ("\"" + inner)) + "\"" == t + ("\"" + inner + "\"")
  {
  }

  lemma RawWrites(t: string, count: nat, s: string, close: string)
    ensures Write(Write(Writer(t, count, false), Node(ArgValue, s)), Node(ArgClose, close))
         == Writer(t + QuoteNormalizer.Normalized(s), count, false)
  {
    assert t + "" == t;
  }

  lemma Reassociate(t: string, sep: string, key: string, v: string)
    ensures (t + (sep + key)) + v == t + (sep + (key + v))
  {
  }

  lemma ValueWrites(t: string, count: nat, v: Value, close: string)
    ensures Write(Write(Writer(t, count, false), Node(if v.Str? then ArgStringValue else ArgValue, v.s)),
                  Node(ArgClose, close))
         == Writer(t + ValueText(v), count, false)
  {
    if v.Str? {
      StringWrites(t, count, v.s, close);
    } else {
      RawWrites(t, count, v.s, close);
    }
  }

  function Separator(count: nat): string {
    if count > 0 then "," else ""
  }

  lemma ArgumentWrites(t: string, count: nat, q: bool, a: Argument)
    requires t != ""
    ensures WriteAll(Writer(t, count, q), ArgumentNodes(a))
         == Writer(t + (Separator(count) + Member(a)), count + 1, false)
  {
    var w, key := Writer(t, count, false), Dump(Trim.Both(a.key)) + ":";
    var n2 := Node(if a.value.Str? then ArgStringValue else ArgValue, a.value.s);
    FourWrites(Writer(t, count, q), Node(ArgOpen, a.open), Node(ArgName, a.key), n2, Node(ArgClose, a.close));
    assert Write(Writer(t, count, q), Node(ArgOpen, a.open)) == w;
    KeyWrites(w, a.key);
    ValueWrites(t + (Separator(count) + key), count + 1, a.value, a.close);
    Reassociate(t, Separator(count), key, ValueText(a.value));
  }

  lemma FourWrites(w: Writer, n0: Node, n1: Node, n2: Node, n3: Node)
    ensures WriteAll(w, [n0, n1, n2, n3]) == Write(Write(Write(Write(w, n0), n1), n2), n3)
  {
    assert [n0, n1, n2, n3] == [n0] + [n1, n2, n3];
    assert [n1, n2, n3] == [n1] + [n2, n3];
    assert [n2, n3] == [n2] + [n3];
    assert [n3] == [n3] + [];
    WriteFirst(w, n0, [n1, n2, n3]);
    WriteFirst(Write(w, n0), n1, [n2, n3]);
    WriteFirst(Write(Write(w, n0), n1), n2, [n3]);
    WriteFirst(Write(Write(Write(w, n0), n1), n2), n3, []);
  }

  /** Members written after others, each with its comma. */
  function More(ms: seq<string>): string {
    if ms == [] then "" else ("," + ms[0]) + More(ms[1..])
  }

  lemma {:induction false} JoinMore(m: string, ms: seq<string>)
    ensures Join(",", [m] + ms) == m + More(ms)
    decreases |ms|
  {
    if ms == [] {
      assert m + "" == m;
    } else {
      assert ([m] + ms)[1..] == [ms[0]] + ms[1..];
      JoinMore(ms[0], ms[1..]);
      assert m + "," + (ms[0] + More(ms[1..])) == m + (("," + ms[0]) + More(ms[1..]));
    }
  }

  /** The members after `count` others, each with its separator. */
  function Tail(count: nat, ms: seq<string>): string
    decreases |ms|
  {
    if ms == [] then "" else (Separator(count) + ms[0]) + Tail(count + 1, ms[1..])
  }

  lemma TailFirst(t: string, count: nat, m: string, ms: seq<string>)
    ensures (t + (Separator(count) + m)) + Tail(count + 1, ms) == t + Tail(count, [m] + ms)
  {
    assert ([m] + ms)[1..] == ms;
    Associative(t, Separator(count) + m, Tail(count + 1, ms));
  }

  lemma {:induction false} AllWrites(t: string, count: nat, args: seq<Argument>)
    requires t != ""
    ensures WriteAll(Writer(t, count, false), AllNodes(args))
         == Writer(t + Tail(count, Members(args)), count + |args|, false)
    decreases |args|
  {
    if args == [] {
      assert t + "" == t;
    } else {
      var m, ms := Member(args[0]), Members(args[1..]);
      ArgumentWrites(t, count, false, args[0]);
      FoldAppend(ArgumentNodes(args[0]), AllNodes(args[1..]), Writer(t, count, false), Side("", "", ""));
      AllWrites(t + (Separator(count) + m), count + 1, args[1..]);
      TailFirst(t, count, m, ms);
    }
  }

  lemma {:induction false} TailIsMore(count: nat, ms: seq<string>)
    requires count > 0
    ensures Tail(count, ms) == More(ms)
    decreases |ms|
  {
    if ms != [] {
      TailIsMore(count + 1, ms[1..]);
    }
  }

  lemma TailIsJoin(ms: seq<string>)
    ensures Tail(0, ms) == Join(",", ms)
  {
    if ms != [] {
      assert ms == [ms[0]] + ms[1..];
      JoinMore(ms[0], ms[1..]);
      TailIsMore(1, ms[1..]);
      assert Separator(0) + ms[0] == ms[0];
    }
  }

  lemma {:induction false} AllNodesShape(args: seq<Argument>)
    ensures forall n <- AllNodes(args) :: Inert(n) && !SetsWhole(n) && SideStep(Side("", "", ""), n) == Side("", "", "")
    ensures forall s: Side :: SideAll(s, AllNodes(args)) == s
  {
    if args != [] {
      AllNodesShape(args[1..]);
      forall s: Side ensures SideAll(s, AllNodes(args)) == s {
        FoldAppend(ArgumentNodes(args[0]), AllNodes(args[1..]), FRESH, s);
        FourSides(s, ArgumentNodes(args[0]));
      }
    }
  }

  lemma FourSides(s: Side, ns: seq<Node>)
    requires |ns| == 4 && forall n <- ns :: SideStep(s, n) == s
    ensures SideAll(s, ns) == s
  {
    assert ns[1..][1..] == ns[2..] && ns[2..][1..] == ns[3..] && ns[3..][1..] == [];
    assert SideAll(s, ns[3..]) == SideAll(s, []);
    assert SideAll(s, ns[2..]) == s;
    assert SideAll(s, ns[1..]) == s;
  }

  lemma KeyComesFirst(args: seq<Argument>, i: nat)
    requires i <= |AllNodes(args)|
    ensures !ValueBeforeKey(AllNodes(args)[..i])
  {
    var ns := AllNodes(args)[..i];
    if i > 0 {
      assert ns[0].tag == ArgOpen;
      if i > 1 {
        assert ns[1..][0].tag == ArgName;
      }
    }
  }

  lemma MemberClosed(a: Argument)
    requires Closed(ValueText(a.value))
    ensures Closed(Member(a))
  {
    DumpClosed(Trim.Both(a.key));
    KeyedClosed(Dump(Trim.Both(a.key)), ValueText(a.value));
  }

  lemma KeyedClosed(key: string, value: string)
    requires Closed(key) && Closed(value)
    ensures Closed(key + ":" + value)
  {
    PlainClosed(":");
    ClosedAppend(key, ":");
    ClosedAppend(key + ":", value);
  }

  /** Every value that is not a string leaves the brace counter as it found it. */
  ghost predicate RawClosed(args: seq<Argument>) {
    forall i :: 0 <= i < |args| && args[i].value.Raw? ==> Closed(ValueText(args[i].value))
  }

  lemma {:induction false} MoreClosed(args: seq<Argument>)
    requires RawClosed(args)
    ensures Closed(More(Members(args)))
  {
    if args != [] {
      MembersFirst(args);
      MoreClosed(args[1..]);
      ClosedAppend("," + Member(args[0]), More(Members(args[1..])));
    }
  }

  lemma MembersFirst(args: seq<Argument>)
    requires args != [] && RawClosed(args)
    ensures Closed(Member(args[0])) && Closed("," + Member(args[0])) && RawClosed(args[1..])
  {
    RawClosedFirst(args);
    MemberClosed(args[0]);
    CommaClosed(Member(args[0]));
  }

  lemma CommaClosed(m: string)
    requires Closed(m)
    ensures Closed("," + m)
  {
    PlainClosed(",");
    ClosedAppend(",", m);
  }

  lemma RawClosedFirst(args: seq<Argument>)
    requires args != [] && RawClosed(args)
    ensures Closed(ValueText(args[0].value)) && RawClosed(args[1..])
  {
    DumpClosed(args[0].value.s);
    forall i | 0 <= i < |args[1..]| && args[1..][i].value.Raw? ensures Closed(ValueText(args[1..][i].value)) {
      assert args[1..][i] == args[i + 1];
    }
  }

  lemma JoinClosed(args: seq<Argument>)
    requires RawClosed(args)
    ensures Closed(Join(",", Members(args)))
  {
    if args != [] {
      MembersFirst(args);
      MoreClosed(args[1..]);
      ClosedAppend(Member(args[0]), More(Members(args[1..])));
      JoinMore(Member(args[0]), Members(args[1..]));
    }
  }

  /** A tool given by tagged arguments, its name anywhere among their nodes: the call's
      arguments are `{`, the members joined by commas, and the missing closing braces;
      just one when every value that is not a string is balanced. */
  lemma TaggedCallExact(st: State, args: seq<Argument>, i: nat, name: string)
    requires st.WellFormed() && i <= |AllNodes(args)| && Trim.Trailing(name, -1) != ""
    ensures var json := "{" + Join(",", Members(args));
            && Run(st, ToolTrace(AllNodes(args), i, name)).calls
               == st.calls + [ToolCall(Trim.Trailing(name, -1), CloseBraces(json), "")]
            && (RawClosed(args) ==> CloseBraces(json) == json + "}")
  {
    var nodes, json := AllNodes(args), "{" + Join(",", Members(args));
    AllNodesShape(args);
    KeyComesFirst(args, i);
    NamePlaceIndependent(st, nodes, i, name);
    ToolTraceRun(st, nodes, 0, name);
    assert nodes[..0] == [] && nodes[0..] == nodes;
    AllWrites("{", 0, args);
    TailIsJoin(Members(args));
    assert json + "" == json;
    if RawClosed(args) {
      JoinClosed(args);
      BracesAround(Join(",", Members(args)));
      assert Repeat('}', 1) == "}";
    }
  }
}
