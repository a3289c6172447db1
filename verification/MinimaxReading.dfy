/**
 What the printed arguments of a complete MiniMax call mean: a JSON reader takes them back
 to the members of the call, exactly when every named member has a value.
 */
module MinimaxReading {
  import opened Text
  import opened JsonText
  import opened JsonReader
  import opened MinimaxPrinter
  import JsonBalance

  // ----- Complete calls -----

  /** A complete value: its entries are complete, and what is written verbatim is JSON. */
  predicate ValueSettled(v: Node)
    decreases Size(v), 0
  {
    match v.tag
    case ArgObject => EntriesSettled(Collect(v.children, Arg))
    case ArgArray => EntriesSettled(Collect(v.children, ArgItem))
    case ArgStringValue => true
    case _ => IsJson(v.text)
  }

  predicate EntrySettled(e: Node)
    decreases Size(e), 1
  {
    !e.isPartial && (ValueOf(e.children).Some? ==> ValueSettled(ValueOf(e.children).value))
  }

  predicate EntriesSettled(es: seq<Node>)
    decreases SizeAll(es), 2
  {
    es == [] || (EntrySettled(es[0]) && EntriesSettled(es[1..]))
  }

  function NameOf(e: Node): Option<Node> {
    FindByTag(e.children, ArgName, 3)
  }

  /** A member prints something when it has a name, an item when it has a value. */
  predicate Prints(e: Node, isObject: bool) {
    if isObject then NameOf(e).Some? else ValueOf(e.children).Some?
  }

  predicate AnyPrints(es: seq<Node>, isObject: bool) {
    es != [] && (Prints(es[0], isObject) || AnyPrints(es[1..], isObject))
  }

  /** Every named member has a value, at every depth. */
  predicate ValueWhole(v: Node)
    decreases Size(v), 0
  {
    match v.tag
    case ArgObject => EntriesWhole(Collect(v.children, Arg), true)
    case ArgArray => EntriesWhole(Collect(v.children, ArgItem), false)
    case _ => true
  }

  predicate EntryWhole(e: Node, isObject: bool)
    decreases Size(e), 1
  {
    Prints(e, isObject) ==> ValueOf(e.children).Some? && ValueWhole(ValueOf(e.children).value)
  }

  predicate EntriesWhole(es: seq<Node>, isObject: bool)
    decreases SizeAll(es), 2
  {
    es == [] || (EntryWhole(es[0], isObject) && EntriesWhole(es[1..], isObject))
  }

  function ValueMeaning(v: Node): Json
    requires ValueSettled(v) && ValueWhole(v)
    decreases Size(v), 0
  {
    match v.tag
    case ArgObject => Obj(MemberMeanings(Collect(v.children, Arg)))
    case ArgArray => Arr(ItemMeanings(Collect(v.children, ArgItem)))
    case ArgStringValue => Str(v.text)
    case _ => ReadValue(v.text).value.0
  }

  function EntryMeaning(e: Node, isObject: bool): Json
    requires EntrySettled(e) && EntryWhole(e, isObject) && Prints(e, isObject)
    decreases Size(e), 1
  {
    ValueMeaning(ValueOf(e.children).value)
  }

  /** The members that have a name, in order. */
  function MemberMeanings(es: seq<Node>): seq<(string, Json)>
    requires EntriesSettled(es) && EntriesWhole(es, true)
    decreases SizeAll(es), 2
  {
    if es == [] then []
    else
      (if Prints(es[0], true) then [(NameOf(es[0]).value.text, EntryMeaning(es[0], true))] else [])
      + MemberMeanings(es[1..])
  }

  /** The items that have a value, in order. */
  function ItemMeanings(es: seq<Node>): seq<Json>
    requires EntriesSettled(es) && EntriesWhole(es, false)
    decreases SizeAll(es), 2
  {
    if es == [] then []
    else
      (if Prints(es[0], false) then [EntryMeaning(es[0], false)] else [])
      + ItemMeanings(es[1..])
  }

  // ----- What is printed -----

  function Printed(v: Node): string {
    ValueToJson(Some(v), true)
  }

  lemma StringPrinted(v: Node)
    requires v.tag == ArgStringValue
    ensures Printed(v) == Dump(v.text)
  {
    EscapeInnerIsEscape(v.text);
  }

  lemma ContainerPrinted(v: Node)
    requires v.tag == ArgObject || v.tag == ArgArray
    ensures var isObject := v.tag == ArgObject;
            var inner := EntriesToJson(Collect(v.children, if isObject then Arg else ArgItem), isObject, false);
            Printed(v) == if isObject then "{" + inner + "}" else "[" + inner + "]"
  {
    assert Printed(v) == ContainerToJson(v, v.tag == ArgObject, true);
  }

  /** A value starts with a value: neither with a blank alone, nor with what ends a list. */
  lemma ValueStarts(v: Node)
    requires ValueSettled(v)
    ensures var t := Skip(Printed(v)); t != "" && t[0] != ']' && t[0] != '}' && t[0] != ','
  {
    match v.tag
    case ArgObject => ContainerPrinted(v);
    case ArgArray => ContainerPrinted(v);
    case ArgStringValue => StringPrinted(v);
    case _ => NothingReads(Skip(v.text));
  }

  /** No value is read where a list goes on or ends. */
  lemma NothingReads(t: string)
    ensures t == "" || t[0] == ',' || t[0] == ']' || t[0] == '}' ==> ReadToken(t) == None
  {
    if t != "" && !IsScalarChar(t[0]) {
      assert ScalarRun(t) == 0 && t[..0] == "";
      assert !IsNumber("");
    }
  }

  lemma EntryPrints(e: Node, isObject: bool)
    requires EntrySettled(e)
    ensures EntryToJson(e, isObject) != "" <==> Prints(e, isObject)
  {
    if !isObject && ValueOf(e.children).Some? {
      ValueStarts(ValueOf(e.children).value);
      assert EntryToJson(e, isObject) == Printed(ValueOf(e.children).value);
    }
  }

  lemma {:induction false} NothingPrinted(es: seq<Node>, isObject: bool, addComma: bool)
    requires EntriesSettled(es) && !AnyPrints(es, isObject)
    ensures EntriesToJson(es, isObject, addComma) == ""
    decreases |es|
  {
    if es != [] {
      EntryPrints(es[0], isObject);
      NothingPrinted(es[1..], isObject, addComma);
    }
  }

  /** Behind another entry, the first one is led by a comma. */
  lemma {:induction false} CommaFirst(es: seq<Node>, isObject: bool)
    requires EntriesSettled(es) && AnyPrints(es, isObject)
    ensures EntriesToJson(es, isObject, true) == "," + EntriesToJson(es, isObject, false)
    decreases |es|
  {
    EntryPrints(es[0], isObject);
    if Prints(es[0], isObject) {
      var text, more := EntryToJson(es[0], isObject), EntriesToJson(es[1..], isObject, true);
      assert ("," + text) + more == "," + (("" + text) + more);
    } else {
      CommaFirst(es[1..], isObject);
    }
  }

  lemma Onwards(text: string, more: string, close: string)
    ensures (("" + text) + ("," + more)) + close == text + ("," + (more + close))
    ensures (("" + text) + "") + close == text + close
  {
  }

  /** The entries from the first one that prints: its text and, behind a comma, the others. */
  lemma EntriesPrinted(es: seq<Node>, isObject: bool, close: string)
    requires es != [] && EntriesSettled(es)
    ensures var text, more := EntryToJson(es[0], isObject), EntriesToJson(es[1..], isObject, false);
            EntriesToJson(es, isObject, false) + close
              == if !Prints(es[0], isObject) then more + close
                 else if AnyPrints(es[1..], isObject) then text + ("," + (more + close))
                 else text + close
  {
    var text, more := EntryToJson(es[0], isObject), EntriesToJson(es[1..], isObject, false);
    EntryPrints(es[0], isObject);
    if Prints(es[0], isObject) {
      if AnyPrints(es[1..], isObject) {
        CommaFirst(es[1..], isObject);
        Onwards(text, more, close);
      } else {
        NothingPrinted(es[1..], isObject, true);
        Onwards(text, "", close);
      }
    }
  }

  /** The first printed entry starts like a member or like a value. */
  lemma {:induction false} EntriesStart(es: seq<Node>, isObject: bool)
    requires EntriesSettled(es) && AnyPrints(es, isObject)
    ensures var t := EntriesToJson(es, isObject, false);
            if isObject then t != "" && t[0] == '"' else Skip(t) != "" && Skip(t)[0] != ']'
    decreases |es|
  {
    EntryPrints(es[0], isObject);
    if !Prints(es[0], isObject) {
      EntriesStart(es[1..], isObject);
    } else if !isObject {
      var v := ValueOf(es[0].children).value;
      ValueStarts(v);
      SkipMore(Printed(v), EntriesToJson(es[1..], false, true));
      assert "" + Printed(v) == Printed(v);
    }
  }

  // ----- Reading it back -----

  lemma {:induction false} ValueReads(v: Node, rest: string)
    requires ValueSettled(v) && Follows(rest)
    ensures ReadValue(Printed(v) + rest) == if ValueWhole(v) then Some((ValueMeaning(v), rest)) else None
    decreases Size(v), 0
  {
    match v.tag
    case ArgObject =>
      ContainerPrinted(v);
      ObjectReads(Collect(v.children, Arg), rest);
    case ArgArray =>
      ContainerPrinted(v);
      ArrayReads(Collect(v.children, ArgItem), rest);
    case ArgStringValue =>
      StringPrinted(v);
      ReadStringValue(v.text, rest);
    case _ =>
      ReadValueMore(v.text, rest);
      assert "" + rest == rest;
  }

  lemma {:induction false} ObjectReads(es: seq<Node>, rest: string)
    requires EntriesSettled(es) && Follows(rest)
    ensures ReadValue(("{" + EntriesToJson(es, true, false) + "}") + rest)
         == if EntriesWhole(es, true) then Some((Obj(MemberMeanings(es)), rest)) else None
    decreases SizeAll(es), 4
  {
    if AnyPrints(es, true) {
      EntriesStart(es, true);
      MembersRead(es, rest);
      ReadObject(EntriesToJson(es, true, false), rest);
    } else {
      NothingPrinted(es, true, false);
      NoMembers(es);
      ReadEmpty('{', '}', rest);
    }
  }

  lemma {:induction false} ArrayReads(es: seq<Node>, rest: string)
    requires EntriesSettled(es) && Follows(rest)
    ensures ReadValue(("[" + EntriesToJson(es, false, false) + "]") + rest)
         == if EntriesWhole(es, false) then Some((Arr(ItemMeanings(es)), rest)) else None
    decreases SizeAll(es), 4
  {
    if AnyPrints(es, false) {
      EntriesStart(es, false);
      ItemsRead(es, rest);
      ReadArray(EntriesToJson(es, false, false), rest);
    } else {
      NothingPrinted(es, false, false);
      NoItems(es);
      ReadEmpty('[', ']', rest);
    }
  }

  lemma {:induction false} NoMembers(es: seq<Node>)
    requires EntriesSettled(es) && !AnyPrints(es, true)
    ensures EntriesWhole(es, true) && MemberMeanings(es) == []
    decreases |es|
  {
    if es != [] {
      NoMembers(es[1..]);
    }
  }

  lemma {:induction false} NoItems(es: seq<Node>)
    requires EntriesSettled(es) && !AnyPrints(es, false)
    ensures EntriesWhole(es, false) && ItemMeanings(es) == []
    decreases |es|
  {
    if es != [] {
      NoItems(es[1..]);
    }
  }

  lemma {:induction false} MemberReads(e: Node, rest: string)
    requires EntrySettled(e) && Prints(e, true) && Follows(rest) && rest != ""
    ensures ReadMember(MemberToJson(e) + rest)
         == if EntryWhole(e, true) then Some(((NameOf(e).value.text, EntryMeaning(e, true)), rest)) else None
    decreases Size(e), 1
  {
    var k, v := NameOf(e).value.text, ValueOf(e.children);
    var text := ValueToJson(v, true);
    Associative(Dump(k) + ":", text, rest);
    ReadKeyed(k, text + rest);
    if v.Some? {
      ValueReads(v.value, rest);
    } else {
      assert text + rest == rest;
      NothingReads(rest);
    }
  }

  lemma {:induction false} MembersRead(es: seq<Node>, rest: string)
    requires EntriesSettled(es) && AnyPrints(es, true)
    ensures ReadMembers(EntriesToJson(es, true, false) + ("}" + rest))
         == if EntriesWhole(es, true) then Some((MemberMeanings(es), rest)) else None
    decreases SizeAll(es), 3
  {
    var text, more := MemberToJson(es[0]), EntriesToJson(es[1..], true, false);
    EntriesPrinted(es, true, "}" + rest);
    if !Prints(es[0], true) {
      MembersRead(es[1..], rest);
      assert EntriesWhole(es[1..], true) ==> [] + MemberMeanings(es[1..]) == MemberMeanings(es[1..]);
    } else if AnyPrints(es[1..], true) {
      var tail := more + ("}" + rest);
      MembersRead(es[1..], rest);
      MemberReads(es[0], "," + tail);
      if EntryWhole(es[0], true) {
        NextMember(text + ("," + tail), (NameOf(es[0]).value.text, EntryMeaning(es[0], true)), tail);
      }
    } else {
      NoMembers(es[1..]);
      MemberReads(es[0], "}" + rest);
      if EntryWhole(es[0], true) {
        var m := (NameOf(es[0]).value.text, EntryMeaning(es[0], true));
        LastMember(text + ("}" + rest), m, rest);
        assert MemberMeanings(es) == [m] + [] == [m];
      }
    }
  }

  lemma {:induction false} ItemsRead(es: seq<Node>, rest: string)
    requires EntriesSettled(es) && AnyPrints(es, false)
    ensures ReadItems(EntriesToJson(es, false, false) + ("]" + rest))
         == if EntriesWhole(es, false) then Some((ItemMeanings(es), rest)) else None
    decreases SizeAll(es), 3
  {
    var more := EntriesToJson(es[1..], false, false);
    EntriesPrinted(es, false, "]" + rest);
    if !Prints(es[0], false) {
      ItemsRead(es[1..], rest);
      assert EntriesWhole(es[1..], false) ==> [] + ItemMeanings(es[1..]) == ItemMeanings(es[1..]);
    } else {
      var v := ValueOf(es[0].children).value;
      if AnyPrints(es[1..], false) {
        var tail := more + ("]" + rest);
        ItemsRead(es[1..], rest);
        ValueReads(v, "," + tail);
        if ValueWhole(v) {
          NextItem(Printed(v), ValueMeaning(v), tail);
        }
      } else {
        NoItems(es[1..]);
        ValueReads(v, "]" + rest);
        if ValueWhole(v) {
          LastItem(Printed(v), ValueMeaning(v), rest);
          assert ItemMeanings(es) == [ValueMeaning(v)] + [] == [ValueMeaning(v)];
        }
      }
    }
  }

  /** The arguments printed for a complete call are one JSON text with the members of the
      call if and only if every named member has a value; otherwise they are no JSON. */
  lemma CompleteCallReadsBack(n: Node)
    requires EntriesSettled(Collect(n.children, Arg))
    ensures var es := Collect(n.children, Arg);
            ReadValue(ContainerToJson(n, true, true))
              == if EntriesWhole(es, true) then Some((Obj(MemberMeanings(es)), "")) else None
  {
    var es := Collect(n.children, Arg);
    ObjectReads(es, "");
    var t := "{" + EntriesToJson(es, true, false) + "}";
    assert t + "" == t && ContainerToJson(n, true, true) == t;
  }

  /** They leave the brace counter where it started. */
  lemma CompleteCallPrintsClosed(n: Node)
    requires EntriesSettled(Collect(n.children, Arg)) && EntriesWhole(Collect(n.children, Arg), true)
    ensures Closed(ContainerToJson(n, true, true))
  {
    CompleteCallReadsBack(n);
    JsonBalance.JsonIsClosed(ContainerToJson(n, true, true));
  }

  /** A complete call with a named member that has no value. */
  lemma MissingValueIsNoJson()
    ensures var n := Node(OtherTag, "", false, [Node(Arg, "a", false, [Node(ArgName, "a", false, [])])]);
            ReadValue(ContainerToJson(n, true, true)) == None
  {
    var e := Node(Arg, "a", false, [Node(ArgName, "a", false, [])]);
    OnlyNamed(e);
    assert Collect([e][1..], Arg) == [];
    assert Collect([e], Arg) == [e] + [] == [e];
    CompleteCallReadsBack(Node(OtherTag, "", false, [e]));
  }

  lemma OnlyNamed(e: Node)
    requires e.children == [Node(ArgName, "a", false, [])] && !e.isPartial
    ensures EntriesSettled([e]) && !EntriesWhole([e], true)
  {
    assert ValueOf(e.children[1..]) == None;
    assert ValueOf(e.children) == None && NameOf(e) == Some(e.children[0]);
    assert EntriesSettled([e][1..]);
  }
}
