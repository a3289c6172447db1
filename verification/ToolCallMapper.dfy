/**
 The mapper that turns the stream of parse-tree nodes into tool calls.

 `Next` specifies one node, `Run` a whole trace; the class `ChatPegMapper` updates the
 same state in place. `Target` stands for the `current_tool` reference: null, the pending
 call, or the last emitted call.
 */
module ToolCallMapper {
  import opened Text
  import Trim
  import JsonText
  import QuoteNormalizer

  datatype Tag =
    | Reasoning | Content
    | ToolOpen | ToolClose | ToolId | ToolName | ToolArgs
    | ArgOpen | ArgClose | ArgName | ArgValue | ArgStringValue
    | OtherTag

  datatype Node = Node(tag: Tag, text: string)

  datatype ToolCall = ToolCall(name: string, arguments: string, id: string)

  datatype Target = NoTool | Pending | LastCall

  datatype State = State(
    content: string,
    reasoning: string,
    calls: seq<ToolCall>,
    pending: Option<ToolCall>,
    current: Target,
    argCount: nat,
    quotePending: bool,
    buffer: string)
  {
    /** The current call never dangles, and a pending call is the current one. */
    ghost predicate WellFormed() {
      && (current == Pending <==> pending.Some?)
      && (current == LastCall ==> calls != [])
    }

    ghost predicate PendingUnnamed() {
      pending.Some? ==> pending.value.name == ""
    }

    function Current(): ToolCall
      requires current == Pending ==> pending.Some?
      requires current == LastCall ==> calls != []
      requires current != NoTool
    {
      if current == Pending then pending.value else calls[|calls| - 1]
    }

    function SetCurrent(t: ToolCall): State
      requires current == LastCall ==> calls != []
    {
      match current
      case NoTool => this
      case Pending => this.(pending := Some(t))
      case LastCall => this.(calls := calls[|calls| - 1 := t])
    }

    /** `args_target()` as a value and as a place. */
    function Args(): string
      requires current == Pending ==> pending.Some?
      requires current == LastCall ==> calls != []
    {
      if current != NoTool && Current().name != "" then Current().arguments else buffer
    }

    function SetArgs(text: string): State
      requires current == Pending ==> pending.Some?
      requires current == LastCall ==> calls != []
    {
      if current != NoTool && Current().name != "" then SetCurrent(Current().(arguments := text))
      else this.(buffer := text)
    }
  }

  const INITIAL := State("", "", [], None, NoTool, 0, false, "")

  function StripQuotes(s: string): string {
    if |s| >= 2 && s[0] == '"' && s[|s| - 1] == '"' then s[1..|s| - 1] else s
  }

  function Repeat(c: char, n: nat): string {
    seq(n, _ => c)
  }

  /** `s` with a `}` for every brace it leaves open. */
  function CloseBraces(s: string): string {
    var d := JsonText.BraceDepth(s);
    s + Repeat('}', if d > 0 then d else 0)
  }

  /** The text between two quotes is taken out of them; any other text stays. */
  lemma QuotesStripped(s: string, t: string)
    ensures s == "\"" + t + "\"" ==> StripQuotes(s) == t
    ensures (forall u: string :: s != "\"" + u + "\"") ==> StripQuotes(s) == s
  {
    if |s| >= 2 && s[0] == '"' && s[|s| - 1] == '"' {
      assert s == "\"" + s[1..|s| - 1] + "\"";
    }
  }

  // ----- What one node writes into the argument text -----

  /** The part of the state that argument nodes touch. */
  datatype Writer = Writer(text: string, argCount: nat, quotePending: bool)

  function KeyEntry(argCount: nat, text: string): string {
    (if argCount > 0 then "," else "") + JsonText.Dump(Trim.Both(text)) + ":"
  }

  function Write(w: Writer, node: Node): Writer {
    match node.tag
    case ToolArgs =>
      var text := Trim.Trailing(node.text, -1);
      if text != "" && text[0] == '{' then w.(text := text) else w
    case ArgOpen => w.(quotePending := false)
    case ArgName =>
      var entry := KeyEntry(w.argCount, node.text);
      Writer((if w.text == "" then "{" else w.text) + entry, w.argCount + 1, w.quotePending)
    case ArgStringValue =>
      if node.text == "" then Writer(w.text + "\"", w.argCount, true)
      else Writer(w.text + ((if w.quotePending then "" else "\"") + JsonText.EscapeInner(node.text)), w.argCount, true)
    case ArgValue =>
      if node.text == "" then w else w.(text := w.text + QuoteNormalizer.Normalized(node.text))
    case ArgClose =>
      if w.quotePending then Writer(w.text + "\"", w.argCount, false) else w
    case _ => w
  }

  function WriterOf(st: State): Writer
    requires st.WellFormed()
  {
    Writer(st.Args(), st.argCount, st.quotePending)
  }

  function SetWriter(st: State, w: Writer): State
    requires st.WellFormed()
  {
    st.SetArgs(w.text).(argCount := w.argCount, quotePending := w.quotePending)
  }

  // ----- One node, a trace -----

  function Next(st: State, node: Node): State
    requires st.WellFormed()
  {
    match node.tag
    case Reasoning => st.(reasoning := st.reasoning + node.text)
    case Content => st.(content := st.content + node.text)
    case ToolOpen =>
      st.(pending := Some(ToolCall("", "", "")), current := Pending, argCount := 0, buffer := "", quotePending := false)
    case ToolId =>
      if st.current == NoTool then st
      else st.SetCurrent(st.Current().(id := StripQuotes(Trim.Trailing(node.text, -1))))
    case ToolName => if st.current == NoTool then st else Named(st, Trim.Trailing(node.text, -1))
    case ToolClose => if st.current == NoTool then st else Finished(st)
    case ArgOpen => st.(quotePending := false)
    case _ => if st.current == NoTool then st else SetWriter(st, Write(WriterOf(st), node))
  }

  function Named(st: State, name: string): State
    requires st.WellFormed() && st.current != NoTool
  {
    var t := st.Current().(name := name);
    var (t', buffer) :=
      if st.buffer != "" then (t.(arguments := st.buffer), "")
      else (if t.arguments == "" then t.(arguments := "{") else t, st.buffer);
    if st.pending.Some? then
      st.(calls := st.calls + [t'], pending := None, current := LastCall, buffer := buffer)
    else
      st.SetCurrent(t').(buffer := buffer)
  }

  /** The argument text that the close step balances. */
  function ClosingText(st: State): string
    requires st.WellFormed() && st.current != NoTool
  {
    var t := st.Current();
    (if t.name == "" && st.buffer != "" then st.buffer else t.arguments) + (if st.quotePending then "\"" else "")
  }

  function Finished(st: State): State
    requires st.WellFormed() && st.current != NoTool
  {
    var t := st.Current();
    var flush := t.name == "" && st.buffer != "";
    var t' := t.(arguments := CloseBraces(ClosingText(st)));
    var st' := st.(buffer := if flush then "" else st.buffer, quotePending := false);
    if st.pending.Some? then
      st'.(calls := if t'.name != "" then st.calls + [t'] else st.calls, pending := None, current := NoTool)
    else
      st'.SetCurrent(t')
  }

  /** A key leaves its text at the argument target and counts. */
  lemma NextKey(st: State, node: Node, target: string)
    requires st.WellFormed() && st.current != NoTool && node.tag == ArgName
    requires target == Write(WriterOf(st), Node(ArgName, node.text)).text
    ensures Next(st, node) == st.SetArgs(target).(argCount := st.argCount + 1)
  {
    var w := Write(WriterOf(st), node);
    assert node == Node(ArgName, node.text);
    assert w == Writer(target, st.argCount + 1, st.quotePending);
    assert Next(st, node) == SetWriter(st, w);
  }

  lemma NextWellFormed(st: State, node: Node)
    requires st.WellFormed()
    ensures Next(st, node).WellFormed()
  {
  }

  /** A pending call that gets a name is emitted. */
  lemma NextUnnamed(st: State, node: Node)
    requires st.WellFormed()
    ensures st.PendingUnnamed() ==> Next(st, node).PendingUnnamed()
  {
  }

  function Run(st: State, nodes: seq<Node>): (st': State)
    requires st.WellFormed()
    ensures st'.WellFormed()
    decreases |nodes|
  {
    if nodes == [] then st
    else
      NextWellFormed(st, nodes[0]);
      Run(Next(st, nodes[0]), nodes[1..])
  }

  predicate IsBlankChar(c: char) {
    c == ' ' || c == '\n' || c == '\r' || c == '\t'
  }

  predicate IsBlank(s: string) {
    forall c <- s :: IsBlankChar(c)
  }

  method CheckBlank(s: string) returns (blank: bool)
    ensures blank == IsBlank(s)
  {
    var k := 0;
    while k < |s|
      invariant 0 <= k <= |s|
      invariant forall j :: 0 <= j < k ==> IsBlankChar(s[j])
    {
      if !IsBlankChar(s[k]) {
        return false;
      }
      k := k + 1;
    }
    return true;
  }

  /** `from_ast` after the visit: flush a named pending call, drop blank reasoning. */
  function Flushed(st: State): State
    requires st.WellFormed()
  {
    var st1 :=
      if st.pending.Some? && st.pending.value.name != "" then
        var t := st.pending.value.(arguments := if st.buffer != "" then st.buffer else st.pending.value.arguments);
        var t' := if st.quotePending && t.arguments != "" then t.(arguments := t.arguments + "\"") else t;
        st.(calls := st.calls + [t'], pending := None)
      else st;
    if st1.reasoning != "" && IsBlank(st1.reasoning) then st1.(reasoning := "") else st1
  }

  /** The texts of all nodes with one tag, in order. */
  function Texts(nodes: seq<Node>, tag: Tag): string {
    if nodes == [] then ""
    else (if nodes[0].tag == tag then nodes[0].text else "") + Texts(nodes[1..], tag)
  }

  lemma NextTexts(st: State, node: Node)
    requires st.WellFormed()
    ensures Next(st, node).content == st.content + (if node.tag == Content then node.text else "")
    ensures Next(st, node).reasoning == st.reasoning + (if node.tag == Reasoning then node.text else "")
  {
    assert st.content + "" == st.content && st.reasoning + "" == st.reasoning;
  }

  lemma {:induction false} RunTexts(st: State, nodes: seq<Node>)
    requires st.WellFormed()
    ensures Run(st, nodes).content == st.content + Texts(nodes, Content)
    ensures Run(st, nodes).reasoning == st.reasoning + Texts(nodes, Reasoning)
    decreases |nodes|
  {
    if nodes == [] {
      assert st.content + "" == st.content && st.reasoning + "" == st.reasoning;
    } else {
      var node := nodes[0];
      NextWellFormed(st, node);
      NextTexts(st, node);
      RunTexts(Next(st, node), nodes[1..]);
      Associative(st.content, if node.tag == Content then node.text else "", Texts(nodes[1..], Content));
      Associative(st.reasoning, if node.tag == Reasoning then node.text else "", Texts(nodes[1..], Reasoning));
    }
  }

  /** No content is lost or made up, and reasoning is dropped if and only if it holds only
      spaces, line breaks and tabs. */
  lemma TextsAreKept(st: State, nodes: seq<Node>)
    requires st.WellFormed()
    ensures Flushed(Run(st, nodes)).content == st.content + Texts(nodes, Content)
    ensures var given := st.reasoning + Texts(nodes, Reasoning);
            Flushed(Run(st, nodes)).reasoning
            == if forall c <- given :: c == ' ' || c == '\n' || c == '\r' || c == '\t' then "" else given
  {
    RunTexts(st, nodes);
  }

  /** The loop of the close step: one `}` for each brace left open. */
  method AppendBraces(arguments: string) returns (r: string)
    ensures r == CloseBraces(arguments)
  {
    r := arguments;
    var d := JsonText.JsonBraceDepth(arguments);
    while d > 0
      invariant r + Repeat('}', if d > 0 then d else 0) == CloseBraces(arguments)
    {
      OneBrace(r, d);
      r := r + "}";
      d := d - 1;
    }
    assert r + Repeat('}', 0) == r;
  }

  lemma OneBrace(r: string, d: nat)
    requires d > 0
    ensures (r + "}") + Repeat('}', d - 1) == r + Repeat('}', d)
  {
  }

  // ----- The mapper itself -----

  class ChatPegMapper {
    var content: string
    var reasoning: string
    var calls: seq<ToolCall>
    var pending: Option<ToolCall>
    var current: Target
    var argCount: nat
    var quotePending: bool
    var buffer: string

    function Model(): State
      reads this
    {
      State(content, reasoning, calls, pending, current, argCount, quotePending, buffer)
    }

    ghost predicate Valid()
      reads this
    {
      Model().WellFormed()
    }

    constructor ()
      ensures Valid() && Model() == INITIAL
    {
      content, reasoning, calls := "", "", [];
      pending, current := None, NoTool;
      argCount, quotePending, buffer := 0, false, "";
    }

    method SetCurrent(t: ToolCall)
      requires current == LastCall ==> calls != []
      modifies this`pending, this`calls
      ensures Model() == old(Model()).SetCurrent(t)
    {
      if current == Pending {
        pending := Some(t);
      } else if current == LastCall {
        calls := calls[|calls| - 1 := t];
      }
    }

    method SetArgs(text: string)
      requires Valid()
      modifies this`pending, this`calls, this`buffer
      ensures Model() == old(Model()).SetArgs(text)
    {
      if current != NoTool && Model().Current().name != "" {
        SetCurrent(Model().Current().(arguments := text));
      } else {
        buffer := text;
      }
    }

    method OnToolId(text: string)
      requires Valid() && current != NoTool
      modifies this
      ensures Model() == Next(old(Model()), Node(ToolId, text))
    {
      var id := Trim.TrimTrailingSpace(text, -1);
      if |id| >= 2 && id[0] == '"' && id[|id| - 1] == '"' {
        id := id[1..|id| - 1];
      }
      SetCurrent(Model().Current().(id := id));
    }

    method OnToolName(text: string)
      requires Valid() && current != NoTool
      modifies this
      ensures Model() == Next(old(Model()), Node(ToolName, text))
    {
      var name := Trim.TrimTrailingSpace(text, -1);
      var tool := Model().Current().(name := name);
      if buffer != "" {
        tool := tool.(arguments := buffer);
        buffer := "";
      } else if tool.arguments == "" {
        tool := tool.(arguments := "{");
      }
      if pending.Some? {
        calls := calls + [tool];
        pending := None;
        current := LastCall;
      } else {
        SetCurrent(tool);
      }
    }

    method OnToolArgs(node: Node)
      requires Valid() && current != NoTool && node.tag == ToolArgs
      modifies this
      ensures Model() == Next(old(Model()), node)
    {
      var text := Trim.TrimTrailingSpace(node.text, -1);
      if text != "" && text[0] == '{' {
        SetArgs(text);
      }
    }

    /** The argument text with the key of a new member added. */
    method AddKey(text: string) returns (target: string)
      requires Valid()
      ensures target == Write(WriterOf(Model()), Node(ArgName, text)).text
    {
      var entry := "";
      if argCount > 0 {
        entry := ",";
      }
      var lead := Trim.TrimLeadingSpace(text, 1);
      var key := Trim.TrimTrailingSpace(lead, -1);
      entry := entry + JsonText.Dump(key) + ":";
      target := Model().Args();
      if target == "" {
        target := "{";
      }
      target := target + entry;
    }

    method OnArgName(node: Node)
      requires Valid() && current != NoTool && node.tag == ArgName
      modifies this
      ensures Model() == Next(old(Model()), node)
    {
      ghost var st := Model();
      var target := AddKey(node.text);
      NextKey(st, node, target);
      SetArgs(target);
      argCount := argCount + 1;
    }

    method OnArgValue(node: Node)
      requires Valid() && current != NoTool && (node.tag == ArgValue || node.tag == ArgStringValue)
      modifies this
      ensures Model() == Next(old(Model()), node)
    {
      var value := "";
      if node.text == "" && node.tag == ArgStringValue {
        value := "\"";
        quotePending := true;
      } else if node.text != "" && node.tag == ArgStringValue {
        if !quotePending {
          value := "\"";
          quotePending := true;
        }
        value := value + JsonText.EscapeInner(node.text);
      } else if node.text != "" {
        value := QuoteNormalizer.Normalize(node.text);
      }
      assert Write(WriterOf(old(Model())), node).text == old(Model().Args()) + value;
      SetArgs(Model().Args() + value);
    }

    method OnArgClose(node: Node)
      requires Valid() && current != NoTool && node.tag == ArgClose
      modifies this
      ensures Model() == Next(old(Model()), node)
    {
      if quotePending {
        SetArgs(Model().Args() + "\"");
        quotePending := false;
      }
    }

    method OnToolClose(text: string)
      requires Valid() && current != NoTool
      modifies this
      ensures Model() == Next(old(Model()), Node(ToolClose, text))
    {
      var tool := Model().Current();
      if tool.name == "" && buffer != "" {
        tool := tool.(arguments := buffer);
        buffer := "";
      }
      if quotePending {
        tool := tool.(arguments := tool.arguments + "\"");
        quotePending := false;
      }
      assert tool.arguments == ClosingText(old(Model()));
      var closed := AppendBraces(tool.arguments);
      tool := tool.(arguments := closed);
      if pending.Some? {
        if tool.name != "" {
          calls := calls + [tool];
        }
        pending := None;
        current := NoTool;
      } else {
        SetCurrent(tool);
      }
    }

    method Map(node: Node)
      requires Valid()
      modifies this
      ensures Valid() && Model() == Next(old(Model()), node)
    {
      NextWellFormed(Model(), node);
      match node.tag {
        case Reasoning => reasoning := reasoning + node.text;
        case Content => content := content + node.text;
        case ToolOpen =>
          pending := Some(ToolCall("", "", ""));
          current := Pending;
          argCount := 0;
          buffer := "";
          quotePending := false;
        case ToolId => if current != NoTool { OnToolId(node.text); }
        case ToolName => if current != NoTool { OnToolName(node.text); }
        case ToolArgs => if current != NoTool { OnToolArgs(node); }
        case ArgOpen => quotePending := false;
        case ArgName => if current != NoTool { OnArgName(node); }
        case ArgValue => if current != NoTool { OnArgValue(node); }
        case ArgStringValue => if current != NoTool { OnArgValue(node); }
        case ArgClose => if current != NoTool { OnArgClose(node); }
        case ToolClose => if current != NoTool { OnToolClose(node.text); }
        case OtherTag =>
      }
    }

    method FromAst(nodes: seq<Node>)
      requires Valid()
      modifies this
      ensures Model() == Flushed(Run(old(Model()), nodes))
      ensures old(Model().PendingUnnamed()) ==> Valid() && Model().PendingUnnamed()
      ensures content == old(content) + Texts(nodes, Content)
      ensures reasoning == "" || reasoning == old(reasoning) + Texts(nodes, Reasoning)
    {
      TextsAreKept(Model(), nodes);
      var i := 0;
      while i < |nodes|
        invariant 0 <= i <= |nodes|
        invariant Valid() && (old(Model().PendingUnnamed()) ==> Model().PendingUnnamed())
        invariant Run(Model(), nodes[i..]) == Run(old(Model()), nodes)
      {
        assert nodes[i..][1..] == nodes[i + 1..];
        NextUnnamed(Model(), nodes[i]);
        Map(nodes[i]);
        i := i + 1;
      }
      if pending.Some? && pending.value.name != "" {
        var tool := pending.value;
        if buffer != "" {
          tool := tool.(arguments := buffer);
        }
        if quotePending && tool.arguments != "" {
          tool := tool.(arguments := tool.arguments + "\"");
        }
        calls := calls + [tool];
        pending := None;
      }
      if reasoning != "" {
        var allWhitespace := CheckBlank(reasoning);
        if allWhitespace {
          reasoning := "";
        }
      }
    }
  }
}
