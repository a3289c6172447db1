/**
 What the printed text of a complete Gemma tree means: a JSON reader takes it back to the
 value the tree stands for.
 */
module GemmaReading {
  import opened Text
  import opened JsonText
  import opened JsonReader
  import opened GemmaPrinter

  // ----- Trees of the grammar and what they mean -----

  /** A finished value of the grammar: no node is partial or empty, strings have their
      content, members have a named key and a value. */
  ghost predicate Finished(n: Node)
    decreases n, 1
  {
    && !n.isPartial && n.text != ""
    && match n.rule
       case Number => IsScalar(n.text)
       case Bool => IsScalar(n.text)
       case Null => IsScalar(n.text)
       case String => n.children != [] && n.children[0].rule == StringContent
       case Array => AllFinished(n.children)
       case Dict => AllMembers(n.children)
       case Value => n.children != [] && Finished(n.children[0])
       case _ => false
  }

  ghost predicate AllFinished(cs: seq<Node>)
    decreases cs, 0
  {
    cs == [] || (Finished(cs[0]) && AllFinished(cs[1..]))
  }

  predicate IsKey(n: Node) {
    && n.rule == Key && !n.isPartial && n.text != ""
    && n.children != [] && n.children[0].rule == KeyName
  }

  ghost predicate AllMembers(cs: seq<Node>)
    decreases cs, 0
  {
    cs == [] ||
    (&& cs[0].rule == KeyValue && cs[0].text != ""
     && |cs[0].children| == 2 && IsKey(cs[0].children[0]) && Finished(cs[0].children[1])
     && AllMembers(cs[1..]))
  }

  ghost function Meaning(n: Node): Json
    requires Finished(n)
    decreases n, 1
  {
    match n.rule
    case String => Str(n.children[0].text)
    case Array => Arr(Meanings(n.children))
    case Dict => Obj(MemberMeanings(n.children))
    case Value => Meaning(n.children[0])
    case _ => Scalar(n.text)
  }

  ghost function Meanings(cs: seq<Node>): seq<Json>
    requires AllFinished(cs)
    decreases cs, 0
  {
    if cs == [] then [] else [Meaning(cs[0])] + Meanings(cs[1..])
  }

  ghost function MemberMeanings(cs: seq<Node>): seq<(string, Json)>
    requires AllMembers(cs)
    decreases cs, 0
  {
    if cs == [] then []
    else [(cs[0].children[0].children[0].text, Meaning(cs[0].children[1]))] + MemberMeanings(cs[1..])
  }

  // ----- Reading the printed text -----

  lemma StringPrints(n: Node)
    requires Finished(n) && n.rule == String
    ensures ToJson(n) == Dump(n.children[0].text)
  {
    var inner := n.children[0].text;
    EscapeInnerIsEscape(inner);
    assert ToJson(n.children[0]) == Escape(inner);
    assert "\"" + (Escape(inner) + "\"") == Dump(inner);
  }

  /** No value starts with a blank, a closing bracket or a brace. */
  lemma {:induction false} ValueStarts(n: Node)
    requires Finished(n)
    ensures var t := ToJson(n); t != "" && t[0] != ']' && t[0] != '}' && !IsBlank(t[0])
    decreases n
  {
    match n.rule
    case Number => assert IsScalarChar(n.text[0]);
    case Bool => assert IsScalarChar(n.text[0]);
    case Null => assert IsScalarChar(n.text[0]);
    case String => StringPrints(n);
    case Array =>
    case Dict =>
    case Value => ValueStarts(n.children[0]);
  }

  /** The reader takes the printed text back to what the tree means, leaving what follows. */
  lemma {:induction false} ReadBack(n: Node, rest: string)
    requires Finished(n) && Follows(rest)
    ensures ReadValue(ToJson(n) + rest) == Some((Meaning(n), rest))
    decreases n, 1
  {
    match n.rule
    case Number => ReadScalarValue(n.text, rest);
    case Bool => ReadScalarValue(n.text, rest);
    case Null => ReadScalarValue(n.text, rest);
    case String =>
      StringPrints(n);
      ReadStringValue(n.children[0].text, rest);
    case Array =>
      if n.children == [] {
        ReadEmpty('[', ']', rest);
      } else {
        ItemsReadBack(n.children, rest);
        ArrayReadsBack(n, rest);
      }
    case Dict =>
      if n.children == [] {
        ReadEmpty('{', '}', rest);
      } else {
        MembersReadBack(n.children, rest);
        DictReadsBack(n, rest);
      }
    case Value => ReadBack(n.children[0], rest);
  }

  lemma ArrayReadsBack(n: Node, rest: string)
    requires Finished(n) && n.rule == Array && n.children != [] && Follows(rest)
    requires ReadItems(Separated(n.children) + ("]" + rest)) == Some((Meanings(n.children), rest))
    ensures ReadValue(ToJson(n) + rest) == Some((Meaning(n), rest))
  {
    ItemsStart(n.children);
    ReadArray(Separated(n.children), rest);
  }

  lemma DictReadsBack(n: Node, rest: string)
    requires Finished(n) && n.rule == Dict && n.children != [] && Follows(rest)
    requires ReadMembers(Separated(n.children) + ("}" + rest)) == Some((MemberMeanings(n.children), rest))
    ensures ReadValue(ToJson(n) + rest) == Some((Meaning(n), rest))
  {
    MembersStart(n.children);
    ReadObject(Separated(n.children), rest);
  }

  lemma ItemsStart(cs: seq<Node>)
    requires cs != [] && AllFinished(cs)
    ensures var t := Separated(cs); t != "" && t[0] != ']' && !IsBlank(t[0])
  {
    ValueStarts(cs[0]);
  }

  lemma MembersStart(cs: seq<Node>)
    requires cs != [] && AllMembers(cs)
    ensures var t := Separated(cs); t != "" && t[0] == '"'
  {
    MemberPrints(cs[0]);
  }

  lemma Onwards(v: string, more: string, close: string)
    ensures (v + ("," + more)) + close == v + ("," + (more + close))
    ensures (v + "") + close == v + close
  {
  }

  lemma {:induction false} ItemsReadBack(cs: seq<Node>, rest: string)
    requires cs != [] && AllFinished(cs)
    ensures ReadItems(Separated(cs) + ("]" + rest)) == Some((Meanings(cs), rest))
    decreases cs, 0
  {
    var v, m := ToJson(cs[0]), Meaning(cs[0]);
    if |cs| == 1 {
      ReadBack(cs[0], "]" + rest);
      LastItem(v, m, rest);
      Onwards(v, "", "]" + rest);
      assert Meanings(cs[1..]) == [] && [m] + [] == [m];
    } else {
      var more := Separated(cs[1..]);
      ItemsReadBack(cs[1..], rest);
      ReadBack(cs[0], "," + (more + ("]" + rest)));
      NextItem(v, m, more + ("]" + rest));
      Onwards(v, more, "]" + rest);
    }
  }

  /** A member is its dumped key, a colon and its value. */
  lemma MemberPrints(n: Node)
    requires n.rule == KeyValue && n.text != "" && |n.children| == 2 && IsKey(n.children[0])
    ensures ToJson(n) == (Dump(n.children[0].children[0].text) + ":") + ToJson(n.children[1])
  {
    var key := n.children[0];
    EscapeInnerIsEscape(key.children[0].text);
    assert ToJson(key.children[0]) == key.children[0].text;
    assert ToJson(key) == "\"" + Escape(key.children[0].text) + "\":" == Dump(key.children[0].text) + ":";
    assert n.children[1..][1..] == [];
    assert Chained(n.children[1..]) == ToJson(n.children[1]) + "" == ToJson(n.children[1]);
  }

  lemma {:induction false} MemberReadsBack(c: Node, rest: string)
    requires AllMembers([c]) && Follows(rest)
    ensures ReadMember(ToJson(c) + rest) == Some(((c.children[0].children[0].text, Meaning(c.children[1])), rest))
    decreases c, 2
  {
    var k, v := c.children[0].children[0].text, ToJson(c.children[1]);
    MemberPrints(c);
    ReadBack(c.children[1], rest);
    ReadKeyed(k, v + rest);
    Associative(Dump(k) + ":", v, rest);
  }

  lemma {:induction false} MembersReadBack(cs: seq<Node>, rest: string)
    requires cs != [] && AllMembers(cs)
    ensures ReadMembers(Separated(cs) + ("}" + rest)) == Some((MemberMeanings(cs), rest))
    decreases cs, 3
  {
    var t := ToJson(cs[0]);
    var m := (cs[0].children[0].children[0].text, Meaning(cs[0].children[1]));
    if |cs| == 1 {
      MemberReadsBack(cs[0], "}" + rest);
      LastMember(t + ("}" + rest), m, rest);
      Onwards(t, "", "}" + rest);
      assert MemberMeanings(cs[1..]) == [] && [m] + [] == [m];
    } else {
      var more := Separated(cs[1..]);
      MembersReadBack(cs[1..], rest);
      MemberReadsBack(cs[0], "," + (more + ("}" + rest)));
      Onwards(t, more, "}" + rest);
      NextMember(t + ("," + (more + ("}" + rest))), m, more + ("}" + rest));
    }
  }

  /** The arguments printed for a finished tree are one JSON text with the tree's meaning. */
  lemma PrintedTextReadsBack(n: Node)
    requires Finished(n)
    ensures ReadValue(ToJson(n)) == Some((Meaning(n), ""))
  {
    ReadBack(n, "");
    assert ToJson(n) + "" == ToJson(n);
  }
}
