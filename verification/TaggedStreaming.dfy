/**
 Tagged arguments while they are still being read: the arguments emitted for part of a call
 are a prefix of those of the whole call, exactly unless a bare value is cut where its
 normalization is not stable yet.
 */
module TaggedStreaming {
  import opened Text
  import opened JsonText
  import opened ToolCallMapper
  import opened ToolCallTraces
  import QuoteNormalizer
  import Trim

  // ----- Part of a trace -----

  /** What has been read of the arguments: `whole` of them, then `nodes` nodes of the next
      one, then, of its value, some characters. Names and delimiters are read whole or not
      at all. */
  datatype Cut = Cut(whole: nat, nodes: nat, chars: Option<nat>)

  predicate IsCut(args: seq<Argument>, cut: Cut) {
    && cut.whole <= |args| && cut.nodes < 4
    && (cut.whole == |args| ==> cut.nodes == 0)
    && (cut.chars.Some? ==> cut.nodes == 2 && cut.chars.value <= |args[cut.whole].value.s|)
  }

  /** The same cut, seen from behind the first argument. */
  function Behind(args: seq<Argument>, cut: Cut): (r: Cut)
    requires IsCut(args, cut) && args != [] && cut.whole > 0
    ensures IsCut(args[1..], r) && r.whole < cut.whole
  {
    cut.(whole := cut.whole - 1)
  }

  function ValueNode(v: Value, text: string): Node {
    Node(if v.Str? then ArgStringValue else ArgValue, text)
  }

  function PartNodes(a: Argument, nodes: nat, chars: Option<nat>): seq<Node>
    requires nodes < 4 && (chars.Some? ==> chars.value <= |a.value.s|)
  {
    ArgumentNodes(a)[..nodes] + if chars.Some? then [ValueNode(a.value, a.value.s[..chars.value])] else []
  }

  function NodesRead(args: seq<Argument>, cut: Cut): seq<Node>
    requires IsCut(args, cut)
    decreases |args|
  {
    if args == [] then []
    else if cut.whole == 0 then PartNodes(args[0], cut.nodes, cut.chars)
    else ArgumentNodes(args[0]) + NodesRead(args[1..], Behind(args, cut))
  }

  /** A tool that is still open, its name behind the first `i` nodes. */
  function OpenTrace(nodes: seq<Node>, i: nat, name: string): seq<Node>
    requires i <= |nodes|
  {
    [Node(ToolOpen, "")] + (nodes[..i] + ([Node(ToolName, name)] + nodes[i..]))
  }

  predicate StableAt(s: string, k: nat)
    requires k <= |s|
  {
    QuoteNormalizer.SafeCut(QuoteNormalizer.ScanText(s[..k], QuoteNormalizer.Outside("")), s[k..])
  }

  /** The cut leaves what is printed stable: a bare value is not cut inside a pair or a word
      that may still turn out to be another. */
  predicate StableCut(args: seq<Argument>, cut: Cut)
    requires IsCut(args, cut)
  {
    cut.chars.Some? && args[cut.whole].value.Raw? ==> StableAt(args[cut.whole].value.s, cut.chars.value)
  }

  // ----- The nodes of a part -----

  predicate IsArgumentNode(n: Node) {
    n.tag == ArgOpen || n.tag == ArgName || n.tag == ArgStringValue || n.tag == ArgValue || n.tag == ArgClose
  }

  lemma {:induction false} PartShape(args: seq<Argument>, cut: Cut)
    requires IsCut(args, cut)
    ensures var q := NodesRead(args, cut);
            && (forall n <- q :: IsArgumentNode(n))
            && (q != [] ==> q[0].tag == ArgOpen) && (|q| > 1 ==> q[1].tag == ArgName)
    decreases |args|
  {
    if args != [] {
      if cut.whole == 0 {
        FirstPart(args[0], cut);
      } else {
        PartShape(args[1..], Behind(args, cut));
        InFront(args[0], NodesRead(args[1..], Behind(args, cut)));
      }
    }
  }

  lemma InFront(a: Argument, q: seq<Node>)
    requires forall n <- q :: IsArgumentNode(n)
    ensures forall n <- ArgumentNodes(a) + q :: IsArgumentNode(n)
    ensures (ArgumentNodes(a) + q)[0].tag == ArgOpen && (ArgumentNodes(a) + q)[1].tag == ArgName
  {
    assert forall n <- ArgumentNodes(a) :: IsArgumentNode(n);
  }

  lemma FirstPart(a: Argument, cut: Cut)
    requires cut.nodes < 4 && (cut.chars.Some? ==> cut.nodes == 2 && cut.chars.value <= |a.value.s|)
    ensures var q := PartNodes(a, cut.nodes, cut.chars);
            && (forall n <- q :: IsArgumentNode(n))
            && (q != [] ==> q[0].tag == ArgOpen) && (|q| > 1 ==> q[1].tag == ArgName)
  {
    assert forall n <- ArgumentNodes(a)[..cut.nodes] :: n in ArgumentNodes(a);
  }

  lemma {:induction false} SideKept(s: Side, q: seq<Node>)
    requires forall n <- q :: IsArgumentNode(n)
    ensures SideAll(s, q) == s
    decreases |q|
  {
    if q != [] {
      assert IsArgumentNode(q[0]);
      SideKept(s, q[1..]);
    }
  }

  lemma KeyFirst(q: seq<Node>, i: nat)
    requires i <= |q| && (q != [] ==> q[0].tag == ArgOpen) && (|q| > 1 ==> q[1].tag == ArgName)
    ensures !ValueBeforeKey(q[..i])
  {
    if i > 1 {
      assert q[..i][1..][0].tag == ArgName;
    }
  }

  // ----- What a part writes -----

  /** A value that has been opened and of which `s` has been read. */
  function Started(v: Value, s: string): string {
    if v.Str? then "\"" + Escape(s) else QuoteNormalizer.Normalized(s)
  }

  lemma ValueStarted(w: Writer, v: Value, s: string)
    requires !w.quotePending
    ensures Write(w, ValueNode(v, s)).text == w.text + Started(v, s)
  {
    EscapeInnerIsEscape(s);
    if s == "" {
      assert w.text + "" == w.text;
      assert "\"" + "" == "\"";
    }
  }

  /** What has been read of a value starts its final text. */
  lemma StartedKept(v: Value, k: nat, rest: string)
    requires k <= |v.s|
    ensures Started(v, v.s[..k]) <= ValueText(v) + rest
       <==> (v.Raw? ==> StableAt(v.s, k))
  {
    if v.Str? {
      EscapeMonotone(v.s[..k], v.s);
      QuotedPrefix(Escape(v.s[..k]), Escape(v.s), rest);
    } else {
      QuoteNormalizer.StreamingMonotone(v.s, k);
      QuoteNormalizer.PrefixNoLonger(v.s, QuoteNormalizer.Out, k);
      PrefixBefore(QuoteNormalizer.Normalized(v.s[..k]), QuoteNormalizer.Normalized(v.s), rest);
    }
  }

  lemma QuotedPrefix(a: string, b: string, rest: string)
    requires a <= b
    ensures "\"" + a <= ("\"" + b + "\"") + rest
  {
  }

  lemma PrefixBefore(a: string, b: string, rest: string)
    requires |a| <= |b|
    ensures a <= b + rest <==> a <= b
  {
    assert (b + rest)[..|a|] == b[..|a|];
  }

  /** What stands in front of a value. */
  function KeyText(count: nat, a: Argument): string {
    Separator(count) + (Dump(Trim.Both(a.key)) + ":")
  }

  lemma OneWrite(w: Writer, n: Node)
    ensures WriteAll(w, [n]) == Write(w, n)
  {
    assert [n] == [n] + [];
    WriteFirst(w, n, []);
  }

  lemma KeyPart(t: string, count: nat, a: Argument)
    requires t != ""
    ensures WriteAll(Writer(t, count, false), [Node(ArgOpen, a.open), Node(ArgName, a.key)])
         == Writer(t + KeyText(count, a), count + 1, false)
  {
    var w, n0, n1 := Writer(t, count, false), Node(ArgOpen, a.open), Node(ArgName, a.key);
    assert [n0, n1] == [n0] + [n1];
    WriteFirst(w, n0, [n1]);
    assert Write(w, n0) == w;
    OneWrite(w, n1);
    KeyWrites(w, a.key);
  }

  lemma ValuePart(t: string, count: nat, a: Argument, s: string)
    requires t != ""
    ensures WriteAll(Writer(t, count, false),
                     [Node(ArgOpen, a.open), Node(ArgName, a.key)] + [ValueNode(a.value, s)]).text
         == (t + KeyText(count, a)) + Started(a.value, s)
  {
    var w, key := Writer(t, count, false), [Node(ArgOpen, a.open), Node(ArgName, a.key)];
    FoldAppend(key, [ValueNode(a.value, s)], w, Side("", "", ""));
    KeyPart(t, count, a);
    OneWrite(WriteAll(w, key), ValueNode(a.value, s));
    ValueStarted(WriteAll(w, key), a.value, s);
  }

  lemma PartsOf(a: Argument, nodes: nat, chars: Option<nat>)
    requires nodes < 4 && (chars.Some? ==> nodes == 2 && chars.value <= |a.value.s|)
    ensures var n0, n1 := Node(ArgOpen, a.open), Node(ArgName, a.key);
            PartNodes(a, nodes, chars)
              == if nodes == 0 then [] else if nodes == 1 then [n0]
                 else if nodes == 3 then [n0, n1] + [ValueNode(a.value, a.value.s)]
                 else if chars.Some? then [n0, n1] + [ValueNode(a.value, a.value.s[..chars.value])]
                 else [n0, n1]
  {
  }

  /** The text after part of one argument. */
  lemma PartText(t: string, count: nat, a: Argument, nodes: nat, chars: Option<nat>)
    requires t != "" && nodes < 4 && (chars.Some? ==> nodes == 2 && chars.value <= |a.value.s|)
    ensures WriteAll(Writer(t, count, false), PartNodes(a, nodes, chars)).text
         == if nodes < 2 then t
            else if nodes == 3 then (t + KeyText(count, a)) + Started(a.value, a.value.s)
            else if chars.Some? then (t + KeyText(count, a)) + Started(a.value, a.value.s[..chars.value])
            else t + KeyText(count, a)
  {
    PartsOf(a, nodes, chars);
    if nodes == 1 {
      OneWrite(Writer(t, count, false), Node(ArgOpen, a.open));
    } else if nodes == 3 {
      ValuePart(t, count, a, a.value.s);
    } else if chars.Some? {
      ValuePart(t, count, a, a.value.s[..chars.value]);
    } else if nodes == 2 {
      KeyPart(t, count, a);
    }
  }

  /** The text after part of one argument against all that will be written. */
  lemma PartWrites(t: string, count: nat, a: Argument, nodes: nat, chars: Option<nat>, rest: string)
    requires t != "" && nodes < 4 && (chars.Some? ==> nodes == 2 && chars.value <= |a.value.s|)
    ensures WriteAll(Writer(t, count, false), PartNodes(a, nodes, chars)).text
              <= t + ((Separator(count) + Member(a)) + rest)
       <==> (chars.Some? ==> Started(a.value, a.value.s[..chars.value]) <= ValueText(a.value) + rest)
  {
    PartText(t, count, a, nodes, chars);
    Spread(t, Separator(count), Dump(Trim.Both(a.key)) + ":", ValueText(a.value), rest);
    if nodes == 3 {
      WholeStarted(a.value, rest);
      PrefixCancel(t + KeyText(count, a), Started(a.value, a.value.s), ValueText(a.value) + rest);
    } else if chars.Some? {
      PrefixCancel(t + KeyText(count, a), Started(a.value, a.value.s[..chars.value]), ValueText(a.value) + rest);
    }
  }

  lemma Spread(t: string, sep: string, key: string, v: string, rest: string)
    ensures t + ((sep + (key + v)) + rest) == (t + (sep + key)) + (v + rest)
  {
  }

  lemma WholeStarted(v: Value, rest: string)
    ensures Started(v, v.s) <= ValueText(v) + rest
  {
    if v.Str? {
      QuotedPrefix(Escape(v.s), Escape(v.s), rest);
    }
  }

  /** The text after part of the arguments against all that will be written. */
  ghost predicate WritesExactly(t: string, count: nat, args: seq<Argument>, cut: Cut, rest: string)
    requires IsCut(args, cut)
  {
    WriteAll(Writer(t, count, false), NodesRead(args, cut)).text <= (t + Tail(count, Members(args))) + rest
    <==> StableCut(args, cut)
  }

  lemma FirstWrites(t: string, count: nat, args: seq<Argument>, cut: Cut, rest: string)
    requires t != "" && IsCut(args, cut) && args != [] && cut.whole == 0
    ensures WritesExactly(t, count, args, cut, rest)
  {
    var more := Tail(count + 1, Members(args[1..]));
    PartWrites(t, count, args[0], cut.nodes, cut.chars, more + rest);
    TailOnce(count, args);
    Regroup(t, Separator(count) + Member(args[0]), more, rest);
    if cut.chars.Some? {
      StartedKept(args[0].value, cut.chars.value, more + rest);
    }
  }

  lemma LaterWrites(t: string, count: nat, args: seq<Argument>, cut: Cut, rest: string)
    requires t != "" && IsCut(args, cut) && args != [] && cut.whole > 0
    requires WritesExactly(t + (Separator(count) + Member(args[0])), count + 1, args[1..],
                           Behind(args, cut), rest)
    ensures WritesExactly(t, count, args, cut, rest)
  {
    LaterNodes(t, count, args, cut);
    LaterTail(t, count, args);
    LaterCut(args, cut);
  }

  lemma LaterNodes(t: string, count: nat, args: seq<Argument>, cut: Cut)
    requires t != "" && IsCut(args, cut) && args != [] && cut.whole > 0
    ensures WriteAll(Writer(t, count, false), NodesRead(args, cut))
         == WriteAll(Writer(t + (Separator(count) + Member(args[0])), count + 1, false),
                     NodesRead(args[1..], Behind(args, cut)))
  {
    ArgumentWrites(t, count, false, args[0]);
    FoldAppend(ArgumentNodes(args[0]), NodesRead(args[1..], Behind(args, cut)), Writer(t, count, false),
               Side("", "", ""));
  }

  lemma LaterTail(t: string, count: nat, args: seq<Argument>)
    requires args != []
    ensures t + Tail(count, Members(args))
         == (t + (Separator(count) + Member(args[0]))) + Tail(count + 1, Members(args[1..]))
  {
    TailOnce(count, args);
    Associative(t, Separator(count) + Member(args[0]), Tail(count + 1, Members(args[1..])));
  }

  lemma LaterCut(args: seq<Argument>, cut: Cut)
    requires IsCut(args, cut) && args != [] && cut.whole > 0
    ensures StableCut(args, cut) <==> StableCut(args[1..], Behind(args, cut))
  {
  }

  lemma {:induction false} ReadWrites(t: string, count: nat, args: seq<Argument>, cut: Cut, rest: string)
    requires t != "" && IsCut(args, cut)
    ensures WritesExactly(t, count, args, cut, rest)
    decreases |args|
  {
    if args == [] {
    } else if cut.whole == 0 {
      FirstWrites(t, count, args, cut, rest);
    } else {
      ReadWrites(t + (Separator(count) + Member(args[0])), count + 1, args[1..], Behind(args, cut), rest);
      LaterWrites(t, count, args, cut, rest);
    }
  }

  lemma TailOnce(count: nat, args: seq<Argument>)
    requires args != []
    ensures Tail(count, Members(args)) == (Separator(count) + Member(args[0])) + Tail(count + 1, Members(args[1..]))
  {
    assert Members(args)[1..] == Members(args[1..]);
  }

  lemma Regroup(t: string, m: string, more: string, rest: string)
    ensures (t + (m + more)) + rest == t + (m + (more + rest))
  {
  }

  // ----- The call that has been emitted -----

  lemma OpenRun(st: State, q: seq<Node>, i: nat, name: string)
    requires st.WellFormed() && i <= |q| && Trim.Trailing(name, -1) != ""
    requires forall n <- q :: IsArgumentNode(n)
    requires !ValueBeforeKey(q[..i])
    ensures Run(st, OpenTrace(q, i, name))
         == Streaming(st.calls, Trim.Trailing(name, -1), Side(st.content, st.reasoning, ""),
                      WriteAll(Writer("{", 0, false), q))
  {
    var a, b, s := q[..i], q[i..], Side(st.content, st.reasoning, "");
    assert q == a + b;
    SideKept(s, a);
    SideKept(s, b);
    UpToName(st, a, [Node(ToolName, name)] + b);
    OpenFromName(st.calls, s, WriteAll(FRESH, a), name, b);
    StartBraced(a, 0);
    FoldAppend(a, b, Writer("{", 0, false), s);
  }

  lemma OpenFromName(base: seq<ToolCall>, s: Side, w: Writer, name: string, b: seq<Node>)
    requires Trim.Trailing(name, -1) != "" && forall n <- b :: IsArgumentNode(n)
    ensures Run(Collecting(base, s, w), [Node(ToolName, name)] + b)
         == Streaming(base, Trim.Trailing(name, -1), SideAll(s, b), WriteAll(WithBrace(w), b))
  {
    RunOne(Collecting(base, s, w), Node(ToolName, name), b);
    NameStep(base, s, w, name);
    StreamingRun(base, Trim.Trailing(name, -1), s, WithBrace(w), b);
  }

  /** Before its name has been read, a call is not emitted. */
  lemma NothingBeforeName(st: State, args: seq<Argument>, cut: Cut)
    requires st.WellFormed() && IsCut(args, cut)
    ensures Run(st, [Node(ToolOpen, "")] + NodesRead(args, cut)).calls == st.calls
  {
    var q := NodesRead(args, cut);
    PartShape(args, cut);
    assert q + [] == q;
    UpToName(st, q, []);
  }

  /** Once it has been read, the call has its final name, and the arguments emitted so far are
      a prefix of the final ones if and only if the cut is stable. */
  lemma EmittedArgumentsAreKept(st: State, args: seq<Argument>, cut: Cut, i: nat, name: string)
    requires st.WellFormed() && IsCut(args, cut) && i <= |NodesRead(args, cut)| && i <= |AllNodes(args)|
    requires Trim.Trailing(name, -1) != ""
    ensures var now := Run(st, OpenTrace(NodesRead(args, cut), i, name)).calls;
            var done := Run(st, ToolTrace(AllNodes(args), i, name)).calls;
            && |now| == |done| == |st.calls| + 1 && now[..|st.calls|] == done[..|st.calls|] == st.calls
            && now[|st.calls|].name == done[|st.calls|].name
            && (now[|st.calls|].arguments <= done[|st.calls|].arguments <==> StableCut(args, cut))
  {
    var q, json := NodesRead(args, cut), "{" + Join(",", Members(args));
    PartShape(args, cut);
    KeyFirst(q, i);
    OpenRun(st, q, i, name);
    TaggedCallExact(st, args, i, name);
    TailIsJoin(Members(args));
    ReadWrites("{", 0, args, cut, CloseBraces(json)[|json|..]);
    assert CloseBraces(json) == json + CloseBraces(json)[|json|..];
  }

  // ----- How much has been emitted -----

  /** The part of an argument: nothing before its name, then the key and the value so far. */
  function PartSoFar(count: nat, a: Argument, nodes: nat, chars: Option<nat>): string
    requires chars.Some? ==> chars.value <= |a.value.s|
  {
    if nodes < 2 then ""
    else
      KeyText(count, a)
      + if nodes == 3 then Started(a.value, a.value.s)
        else if chars.Some? then Started(a.value, a.value.s[..chars.value]) else ""
  }

  function LastPart(args: seq<Argument>, cut: Cut): string
    requires IsCut(args, cut)
  {
    if cut.whole == |args| then "" else PartSoFar(cut.whole, args[cut.whole], cut.nodes, cut.chars)
  }

  lemma PartIs(t: string, count: nat, a: Argument, nodes: nat, chars: Option<nat>)
    requires t != "" && nodes < 4 && (chars.Some? ==> nodes == 2 && chars.value <= |a.value.s|)
    ensures WriteAll(Writer(t, count, false), PartNodes(a, nodes, chars)).text == t + PartSoFar(count, a, nodes, chars)
  {
    var key := KeyText(count, a);
    PartText(t, count, a, nodes, chars);
    assert t + "" == t && key + "" == key;
    Associative(t, key, Started(a.value, a.value.s));
    if chars.Some? {
      Associative(t, key, Started(a.value, a.value.s[..chars.value]));
    }
  }

  function LastNodes(args: seq<Argument>, cut: Cut): seq<Node>
    requires IsCut(args, cut)
  {
    if cut.whole == |args| then [] else PartNodes(args[cut.whole], cut.nodes, cut.chars)
  }

  /** The arguments read whole, and the part of the next one. */
  lemma {:induction false} WholeAndPart(args: seq<Argument>, cut: Cut)
    requires IsCut(args, cut)
    ensures NodesRead(args, cut) == AllNodes(args[..cut.whole]) + LastNodes(args, cut)
    decreases |args|
  {
    if cut.whole == 0 {
      assert args[..0] == [] && [] + LastNodes(args, cut) == LastNodes(args, cut);
    } else {
      WholeAndPart(args[1..], Behind(args, cut));
      assert args[..cut.whole][1..] == args[1..][..cut.whole - 1];
      assert LastNodes(args, cut) == LastNodes(args[1..], Behind(args, cut));
      Associative(ArgumentNodes(args[0]), AllNodes(args[..cut.whole][1..]), LastNodes(args, cut));
    }
  }

  lemma FrontText(args: seq<Argument>)
    ensures WriteAll(Writer("{", 0, false), AllNodes(args)) == Writer("{" + Join(",", Members(args)), |args|, false)
  {
    AllWrites("{", 0, args);
    TailIsJoin(Members(args));
  }

  lemma LastText(t: string, args: seq<Argument>, cut: Cut)
    requires t != "" && IsCut(args, cut)
    ensures WriteAll(Writer(t, cut.whole, false), LastNodes(args, cut)).text == t + LastPart(args, cut)
  {
    if cut.whole == |args| {
      assert t + "" == t;
    } else {
      PartIs(t, cut.whole, args[cut.whole], cut.nodes, cut.chars);
    }
  }

  lemma BothTexts(front: seq<Node>, last: seq<Node>, t: string, count: nat, text: string)
    requires WriteAll(Writer("{", 0, false), front) == Writer(t, count, false)
    requires WriteAll(Writer(t, count, false), last).text == text
    ensures WriteAll(Writer("{", 0, false), front + last).text == text
  {
    FoldAppend(front, last, Writer("{", 0, false), Side("", "", ""));
  }

  lemma TextRead(args: seq<Argument>, cut: Cut)
    requires IsCut(args, cut)
    ensures WriteAll(Writer("{", 0, false), NodesRead(args, cut)).text
         == ("{" + Join(",", Members(args[..cut.whole]))) + LastPart(args, cut)
  {
    var whole := args[..cut.whole];
    var t := "{" + Join(",", Members(whole));
    FrontText(whole);
    LastText(t, args, cut);
    BothTexts(AllNodes(whole), LastNodes(args, cut), t, cut.whole, t + LastPart(args, cut));
    WholeAndPart(args, cut);
  }

  lemma OpenArguments(st: State, q: seq<Node>, i: nat, name: string)
    requires st.WellFormed() && i <= |q| && Trim.Trailing(name, -1) != ""
    requires (forall n <- q :: IsArgumentNode(n)) && !ValueBeforeKey(q[..i])
    ensures var now := Run(st, OpenTrace(q, i, name)).calls;
            |now| == |st.calls| + 1 && now[|st.calls|].arguments == WriteAll(Writer("{", 0, false), q).text
  {
    OpenRun(st, q, i, name);
  }

  /** What has been emitted is everything that has been read: the members that are whole, the
      key of the next one as soon as its name stands there, and its value character by
      character. */
  lemma EmittedSoFar(st: State, args: seq<Argument>, cut: Cut, i: nat, name: string)
    requires st.WellFormed() && IsCut(args, cut) && i <= |NodesRead(args, cut)| && Trim.Trailing(name, -1) != ""
    ensures var now := Run(st, OpenTrace(NodesRead(args, cut), i, name)).calls;
            && |now| == |st.calls| + 1
            && now[|st.calls|].arguments
               == ("{" + Join(",", Members(args[..cut.whole]))) + LastPart(args, cut)
  {
    PartShape(args, cut);
    KeyFirst(NodesRead(args, cut), i);
    OpenArguments(st, NodesRead(args, cut), i, name);
    TextRead(args, cut);
  }
}
