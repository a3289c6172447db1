/**
 How much of a Gemma tool call is printed while it arrives: with the quotes, colons and
 brackets that the unfinished nodes on the last path still owe, the text is JSON for
 everything the tree holds so far.
 */
module GemmaUnderway {
  import opened Text
  import opened JsonText
  import opened JsonReader
  import opened GemmaPrinter
  import opened GemmaReading

  const NULL := Node(Null, "null", false, [])
  const NO_NAME := Node(KeyName, "", false, [])
  const NO_CONTENT := Node(StringContent, "", false, [])
  const NO_KEY := Node(Key, ":", false, [NO_NAME])

  // ----- Trees that are still growing -----

  /** The rest of a word, or one more digit, for a scalar that is cut. */
  function ScalarRest(t: string): string {
    if IsScalar(t) then ""
    else if t <= "true" then "true"[|t|..]
    else if t <= "false" then "false"[|t|..]
    else if t <= "null" then "null"[|t|..]
    else "0"
  }

  /** A value of the grammar that may be cut: finished, or partial with all but its last
      child finished. A node without text was attempted where the input ends. */
  ghost predicate Underway(n: Node)
    decreases n, 1
  {
    || n.text == ""
    || Finished(n)
    || (&& n.isPartial
        && match n.rule
           case Number => IsScalar(n.text + ScalarRest(n.text))
           case Bool => IsScalar(n.text + ScalarRest(n.text))
           case Null => IsScalar(n.text + ScalarRest(n.text))
           case String => n.children == [] || n.children[0].rule == StringContent
           case Array => n.children == [] || ItemsUnderway(n.children)
           case Dict => n.children == [] || MembersUnderway(n.children)
           case Value => n.children == [] || Underway(n.children[0])
           case _ => false)
  }

  ghost predicate ItemsUnderway(cs: seq<Node>)
    requires cs != []
    decreases cs, 0
  {
    if |cs| == 1 then Underway(cs[0]) else Finished(cs[0]) && ItemsUnderway(cs[1..])
  }

  ghost predicate MembersUnderway(cs: seq<Node>)
    requires cs != []
    decreases cs, 3
  {
    if |cs| == 1 then MemberUnderway(cs[0]) else AllMembers([cs[0]]) && MembersUnderway(cs[1..])
  }

  /** A key whose colon has not been read. */
  predicate CutKey(n: Node) {
    && n.rule == Key && n.isPartial && n.text != ""
    && (n.children == [] || n.children[0].rule == KeyName)
  }

  ghost predicate MemberUnderway(n: Node)
    decreases n, 2
  {
    && n.rule == KeyValue
    && (|| n.text == ""
        || (|n.children| == 1 && (IsKey(n.children[0]) || CutKey(n.children[0])))
        || (|n.children| == 2 && IsKey(n.children[0]) && Underway(n.children[1])))
  }

  // ----- The same trees with an end -----

  /** The tree with every partial node ended: `null` where a value is missing. */
  function Ended(n: Node): Node
    decreases n, 1
  {
    if n.text == "" then NULL
    else if !n.isPartial then n
    else
      match n.rule
      case String => Node(String, n.text, false, if n.children == [] then [NO_CONTENT] else n.children)
      case Array => Node(Array, n.text, false, if n.children == [] then [] else EndedItems(n.children))
      case Dict => Node(Dict, n.text, false, if n.children == [] then [] else EndedMembers(n.children))
      case Value => Node(Value, n.text, false, [if n.children == [] then NULL else Ended(n.children[0])])
      case _ => Node(n.rule, n.text + ScalarRest(n.text), false, [])
  }

  function EndedItems(cs: seq<Node>): seq<Node>
    requires cs != []
    decreases cs, 0
  {
    if |cs| == 1 then [Ended(cs[0])] else [cs[0]] + EndedItems(cs[1..])
  }

  function EndedMembers(cs: seq<Node>): seq<Node>
    requires cs != []
    decreases cs, 3
  {
    if |cs| == 1 then [EndedMember(cs[0])] else [cs[0]] + EndedMembers(cs[1..])
  }

  function EndedKey(n: Node): Node {
    Node(Key, n.text, false, if n.children == [] then [NO_NAME] else n.children)
  }

  function EndedMember(n: Node): Node
    decreases n, 2
  {
    if n.text == "" || n.children == [] then Node(KeyValue, ":", false, [NO_KEY, NULL])
    else if |n.children| == 1 then
      Node(KeyValue, n.text, false, [if n.children[0].isPartial then EndedKey(n.children[0]) else n.children[0], NULL])
    else Node(KeyValue, n.text, false, [n.children[0], Ended(n.children[1])])
  }

  // ----- What the text still owes -----

  function Closers(n: Node): string
    decreases n, 1
  {
    if n.text == "" then "null"
    else if !n.isPartial then ""
    else
      match n.rule
      case String => "\""
      case Array => (if n.children == [] then "" else Closers(n.children[|n.children| - 1])) + "]"
      case Dict => (if n.children == [] then "" else MemberClosers(n.children[|n.children| - 1])) + "}"
      case Value => if n.children == [] then "null" else Closers(n.children[0])
      case _ => ScalarRest(n.text)
  }

  function MemberClosers(n: Node): string
    decreases n, 2
  {
    if n.text == "" || n.children == [] then "\"\":null"
    else if |n.children| == 1 then (if n.children[0].isPartial then "\":" else "") + "null"
    else Closers(n.children[1])
  }

  // ----- Printing stops short by exactly that -----

  lemma Enclosed(open: string, p: string, owed: string, close: string, whole: string)
    requires p + owed == whole
    ensures (open + p + "") + (owed + close) == open + whole + close
  {
  }

  lemma NullPrints()
    ensures ToJson(NULL) == "null" && Finished(NULL)
  {
    assert IsScalar("null");
  }

  lemma MissingIsNull(n: Node)
    requires n.text == ""
    ensures ToJson(n) + Closers(n) == ToJson(Ended(n)) && Finished(Ended(n))
  {
    NullPrints();
    assert Ended(n) == NULL && Closers(n) == "null" && ToJson(n) == "";
  }

  lemma FinishedStays(n: Node)
    requires Finished(n)
    ensures Ended(n) == n && Closers(n) == "" && ToJson(n) + Closers(n) == ToJson(n)
  {
  }

  lemma StringEnds(n: Node)
    requires n.rule == String && n.text != "" && n.isPartial
    requires n.children == [] || n.children[0].rule == StringContent
    ensures ToJson(n) + Closers(n) == ToJson(Ended(n)) && Finished(Ended(n))
  {
    var inner := if n.children == [] then "" else ToJson(n.children[0]);
    assert ToJson(n) == "\"" + inner by { assert inner + "" == inner; }
    assert ToJson(NO_CONTENT) == "";
    assert ToJson(Ended(n)) == "\"" + (inner + "\"");
    Associative("\"", inner, "\"");
  }

  lemma ScalarEnds(n: Node)
    requires n.rule == Number || n.rule == Bool || n.rule == Null
    requires n.text != "" && n.isPartial && IsScalar(n.text + ScalarRest(n.text))
    ensures ToJson(n) + Closers(n) == ToJson(Ended(n)) && Finished(Ended(n))
  {
  }

  // ----- Members -----

  /** A key, complete or cut, and what it owes. */
  lemma KeyPrints(key: Node, name: string)
    requires IsKey(key) || CutKey(key)
    requires name == if key.children == [] then "" else key.children[0].text
    ensures ToJson(key) + (if key.isPartial then "\":" else "") == Dump(name) + ":"
  {
    EscapeInnerIsEscape(name);
    if key.children != [] {
      assert ToJson(key.children[0]) == name;
    }
    assert ToJson(key) == "\"" + Escape(name) + Unless(key.isPartial, "\":");
    assert ("\"" + Escape(name) + "\":") + "" == Dump(name) + ":";
    assert ("\"" + Escape(name) + "") + "\":" == Dump(name) + ":";
  }

  lemma OneChild(n: Node)
    requires n.rule == KeyValue && n.text != "" && |n.children| == 1
    ensures ToJson(n) == ToJson(n.children[0])
  {
    assert Chained(n.children[1..]) == "";
    assert ToJson(n.children[0]) + "" == ToJson(n.children[0]);
  }

  lemma TwoChildren(n: Node)
    requires n.rule == KeyValue && n.text != "" && |n.children| == 2
    ensures ToJson(n) == ToJson(n.children[0]) + ToJson(n.children[1])
  {
    assert n.children[1..][1..] == [];
    assert Chained(n.children[1..]) == ToJson(n.children[1]) + "" == ToJson(n.children[1]);
  }

  lemma NothingOfMember(n: Node)
    requires n.rule == KeyValue && n.text == ""
    ensures ToJson(n) + MemberClosers(n) == ToJson(EndedMember(n)) && AllMembers([EndedMember(n)])
  {
    var e := Node(KeyValue, ":", false, [NO_KEY, NULL]);
    NullPrints();
    TwoChildren(e);
    KeyPrints(NO_KEY, "");
    assert ToJson(NO_KEY) + "" == ToJson(NO_KEY);
    assert Dump("") + ":" + "null" == "\"\":null" && "" + "\"\":null" == "\"\":null";
    assert [e][1..] == [];
  }

  lemma KeyOfMember(n: Node, name: string)
    requires n.rule == KeyValue && n.text != "" && |n.children| == 1 && (IsKey(n.children[0]) || CutKey(n.children[0]))
    requires name == if n.children[0].children == [] then "" else n.children[0].children[0].text
    ensures ToJson(n) + MemberClosers(n) == ToJson(EndedMember(n)) && AllMembers([EndedMember(n)])
  {
    var key, e := n.children[0], EndedMember(n);
    OneChild(n);
    KeyPrints(key, name);
    NullPrints();
    TwoChildren(e);
    KeyPrints(e.children[0], name);
    assert ToJson(e.children[0]) + "" == ToJson(e.children[0]);
    Associative(ToJson(key), if key.isPartial then "\":" else "", "null");
    assert [e][1..] == [];
  }

  lemma ValueOfMember(n: Node)
    requires n.rule == KeyValue && n.text != "" && |n.children| == 2 && IsKey(n.children[0])
    requires var v := n.children[1]; ToJson(v) + Closers(v) == ToJson(Ended(v)) && Finished(Ended(v))
    ensures ToJson(n) + MemberClosers(n) == ToJson(EndedMember(n)) && AllMembers([EndedMember(n)])
  {
    var e := EndedMember(n);
    TwoChildren(n);
    TwoChildren(e);
    Associative(ToJson(n.children[0]), ToJson(n.children[1]), Closers(n.children[1]));
    assert [e][1..] == [];
  }

  lemma {:induction false} MemberEnds(n: Node)
    requires MemberUnderway(n)
    ensures ToJson(n) + MemberClosers(n) == ToJson(EndedMember(n)) && AllMembers([EndedMember(n)])
    decreases n, 2
  {
    if n.text == "" {
      NothingOfMember(n);
    } else if |n.children| == 1 {
      KeyOfMember(n, if n.children[0].children == [] then "" else n.children[0].children[0].text);
    } else {
      PrintingStopsShort(n.children[1]);
      ValueOfMember(n);
    }
  }

  // ----- Lists -----

  lemma OnlyItem(c: Node)
    ensures Separated([c]) == ToJson(c)
  {
    assert ToJson(c) + "" == ToJson(c);
  }

  lemma MoreItems(c: Node, cs: seq<Node>, owed: string, ended: seq<Node>)
    requires cs != [] && ended != [] && Separated(cs) + owed == Separated(ended)
    ensures Separated([c] + cs) + owed == Separated([c] + ended)
  {
    assert ([c] + cs)[1..] == cs && ([c] + ended)[1..] == ended;
    assert ToJson(c) + ("," + (Separated(cs) + owed)) == (ToJson(c) + ("," + Separated(cs))) + owed;
  }

  lemma {:induction false} ItemsEnd(cs: seq<Node>)
    requires cs != [] && ItemsUnderway(cs)
    ensures EndedItems(cs) != [] && AllFinished(EndedItems(cs))
    ensures Separated(cs) + Closers(cs[|cs| - 1]) == Separated(EndedItems(cs))
    decreases cs, 0
  {
    if |cs| == 1 {
      PrintingStopsShort(cs[0]);
      OnlyItem(cs[0]);
      OnlyItem(Ended(cs[0]));
      assert cs == [cs[0]] && [Ended(cs[0])][1..] == [];
    } else {
      ItemsEnd(cs[1..]);
      MoreItems(cs[0], cs[1..], Closers(cs[|cs| - 1]), EndedItems(cs[1..]));
      assert cs == [cs[0]] + cs[1..] && ([cs[0]] + EndedItems(cs[1..]))[1..] == EndedItems(cs[1..]);
    }
  }

  lemma {:induction false} MembersEnd(cs: seq<Node>)
    requires cs != [] && MembersUnderway(cs)
    ensures EndedMembers(cs) != [] && AllMembers(EndedMembers(cs))
    ensures Separated(cs) + MemberClosers(cs[|cs| - 1]) == Separated(EndedMembers(cs))
    decreases cs, 3
  {
    if |cs| == 1 {
      MemberEnds(cs[0]);
      OnlyItem(cs[0]);
      OnlyItem(EndedMember(cs[0]));
      assert cs == [cs[0]];
    } else {
      MembersEnd(cs[1..]);
      MoreItems(cs[0], cs[1..], MemberClosers(cs[|cs| - 1]), EndedMembers(cs[1..]));
      assert cs == [cs[0]] + cs[1..] && ([cs[0]] + EndedMembers(cs[1..]))[1..] == EndedMembers(cs[1..]);
    }
  }

  lemma ContainerPrints(n: Node)
    requires n.text != ""
    ensures n.rule == Array ==> ToJson(n) == "[" + Separated(n.children) + Unless(n.isPartial, "]")
    ensures n.rule == Dict ==> ToJson(n) == "{" + Separated(n.children) + Unless(n.isPartial, "}")
  {
  }

  lemma ArrayEnds(n: Node)
    requires n.rule == Array && n.text != "" && n.isPartial && n.children != []
    requires EndedItems(n.children) != [] && AllFinished(EndedItems(n.children))
    requires Separated(n.children) + Closers(n.children[|n.children| - 1]) == Separated(EndedItems(n.children))
    ensures ToJson(n) + Closers(n) == ToJson(Ended(n)) && Finished(Ended(n))
  {
    var cs := n.children;
    ContainerPrints(n);
    ContainerPrints(Ended(n));
    Enclosed("[", Separated(cs), Closers(cs[|cs| - 1]), "]", Separated(EndedItems(cs)));
  }

  lemma DictEnds(n: Node)
    requires n.rule == Dict && n.text != "" && n.isPartial && n.children != []
    requires EndedMembers(n.children) != [] && AllMembers(EndedMembers(n.children))
    requires Separated(n.children) + MemberClosers(n.children[|n.children| - 1]) == Separated(EndedMembers(n.children))
    ensures ToJson(n) + Closers(n) == ToJson(Ended(n)) && Finished(Ended(n))
  {
    var cs := n.children;
    ContainerPrints(n);
    ContainerPrints(Ended(n));
    Enclosed("{", Separated(cs), MemberClosers(cs[|cs| - 1]), "}", Separated(EndedMembers(cs)));
  }

  lemma EmptyEnds(n: Node)
    requires (n.rule == Array || n.rule == Dict || n.rule == Value) && n.text != "" && n.isPartial && n.children == []
    ensures ToJson(n) + Closers(n) == ToJson(Ended(n)) && Finished(Ended(n))
  {
    NullPrints();
    Enclosed("[", "", "", "]", "");
    Enclosed("{", "", "", "}", "");
    assert "" + "null" == "null";
  }

  lemma ValueEnds(n: Node)
    requires n.rule == Value && n.text != "" && n.isPartial && n.children != []
    requires var v := n.children[0]; ToJson(v) + Closers(v) == ToJson(Ended(v)) && Finished(Ended(v))
    ensures ToJson(n) + Closers(n) == ToJson(Ended(n)) && Finished(Ended(n))
  {
  }

  /** What is printed of an unfinished value is what its ended tree prints, up to exactly the
      closing quotes, colons and brackets and the missing rests of the nodes on its last
      path. */
  lemma {:induction false} PrintingStopsShort(n: Node)
    requires Underway(n)
    ensures ToJson(n) + Closers(n) == ToJson(Ended(n)) && Finished(Ended(n))
    decreases n, 1
  {
    if n.text == "" {
      MissingIsNull(n);
    } else if Finished(n) {
      FinishedStays(n);
    } else if n.rule == String {
      StringEnds(n);
    } else if n.rule == Number || n.rule == Bool || n.rule == Null {
      ScalarEnds(n);
    } else if n.children == [] {
      EmptyEnds(n);
    } else if n.rule == Array {
      ItemsEnd(n.children);
      ArrayEnds(n);
    } else if n.rule == Dict {
      MembersEnd(n.children);
      DictEnds(n);
    } else {
      PrintingStopsShort(n.children[0]);
      ValueEnds(n);
    }
  }

  /** So the text printed so far holds every value read so far: closed like that, a JSON
      reader takes it back to them. */
  lemma PrintedSoFarReadsBack(n: Node)
    requires Underway(n)
    ensures Finished(Ended(n)) && ReadValue(ToJson(n) + Closers(n)) == Some((Meaning(Ended(n)), ""))
  {
    PrintingStopsShort(n);
    PrintedTextReadsBack(Ended(n));
  }
}
