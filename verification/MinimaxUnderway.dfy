/**
 How much of a MiniMax call is printed while it arrives, for the trees that the grammar
 builds: a given call becomes a tree, the tree is printed, and with the quotes and brackets
 still owed on its last path the text is JSON for everything given so far.
 */
module MinimaxUnderway {
  import opened Text
  import opened JsonText
  import opened MinimaxPrinter
  import opened MinimaxReading
  import JsonReader

  type Json = JsonReader.Json

  // ----- What a call may have given so far -----

  /** A value: a string, JSON written verbatim of which `rest` is still to come, or the
      elements of an object or array. */
  datatype Given =
    | Quoted(s: string) | Verbatim(s: string, rest: string)
    | Members(es: seq<Entry>) | Items(es: seq<Entry>)

  /** An element; members have a name. An open one has no closing tag yet. */
  datatype Entry = Entry(name: Option<string>, value: Option<Given>, open: bool)

  predicate Complete(v: Given)
    decreases v, 1
  {
    match v
    case Quoted(_) => true
    case Verbatim(s, rest) => rest == "" && JsonReader.IsJson(s)
    case Members(es) => AllComplete(es, true)
    case Items(es) => AllComplete(es, false)
  }

  predicate CompleteEntry(e: Entry, isObject: bool)
    decreases e, 2
  {
    !e.open && e.name.Some? == isObject && e.value.Some? && Complete(e.value.value)
  }

  predicate AllComplete(es: seq<Entry>, isObject: bool)
    decreases es, 0
  {
    es == [] || (CompleteEntry(es[0], isObject) && AllComplete(es[1..], isObject))
  }

  /** A value that may be cut off behind any of its text. */
  predicate Cut(v: Given)
    decreases v, 1
  {
    match v
    case Quoted(_) => true
    case Verbatim(s, rest) => JsonReader.IsJson(s + rest)
    case Members(es) => CutEntries(es, true)
    case Items(es) => CutEntries(es, false)
  }

  /** Complete, or open: without a name it was only attempted. */
  predicate CutEntry(e: Entry, isObject: bool)
    decreases e, 2
  {
    || CompleteEntry(e, isObject)
    || (&& e.open && (e.value.Some? ==> Cut(e.value.value))
        && (if e.name.Some? then isObject else isObject ==> e.value.None?))
  }

  predicate CutEntries(es: seq<Entry>, isObject: bool)
    decreases es, 0
  {
    || es == []
    || if |es| == 1 then CutEntry(es[0], isObject)
       else CompleteEntry(es[0], isObject) && CutEntries(es[1..], isObject)
  }

  // ----- The tree of a call -----

  function Leaf(tag: Tag, text: string): Node {
    Node(tag, text, false, [])
  }

  function TreeOf(v: Given): Node
    decreases v, 1
  {
    match v
    case Quoted(s) => Leaf(ArgStringValue, s)
    case Verbatim(s, _) => Leaf(ArgValue, s)
    case Members(es) => Node(ArgObject, "", false, Trees(es, true))
    case Items(es) => Node(ArgArray, "", false, Trees(es, false))
  }

  /** The opening tag with the name in it, the value and the closing tag. */
  function EntryNode(e: Entry, isObject: bool): Node
    decreases e, 2
  {
    Node(if isObject then Arg else ArgItem, "", e.open,
      (if e.name.Some? then [Node(OtherTag, "", false, [Leaf(ArgName, e.name.value)])] else [])
      + ((if e.value.Some? then [TreeOf(e.value.value)] else []) + [Node(OtherTag, "", e.open, [])]))
  }

  /** Each element stands below the node of its rule. */
  function Trees(es: seq<Entry>, isObject: bool): seq<Node>
    decreases es, 0
  {
    if es == [] then []
    else [Node(OtherTag, "", es[0].open, [EntryNode(es[0], isObject)])] + Trees(es[1..], isObject)
  }

  /** The tool node of a call: its opening tag and the arguments. */
  function CallTree(es: seq<Entry>, open: bool): Node {
    Node(OtherTag, "", open, [Leaf(OtherTag, "")] + Trees(es, true))
  }

  function EntryNodes(es: seq<Entry>, isObject: bool): seq<Node> {
    if es == [] then [] else [EntryNode(es[0], isObject)] + EntryNodes(es[1..], isObject)
  }

  // ----- The searches find what was given -----

  lemma CollectFirst(c: Node, cs: seq<Node>, tag: Tag)
    ensures Collect([c] + cs, tag) == (if c.tag == tag then [c] else Collect(c.children, tag)) + Collect(cs, tag)
  {
    assert ([c] + cs)[1..] == cs;
  }

  lemma CollectOne(c: Node, tag: Tag)
    requires c.tag == tag
    ensures Collect([c], tag) == [c]
  {
    assert [c][1..] == [];
  }

  lemma {:induction false} TreesCollected(es: seq<Entry>, isObject: bool)
    ensures Collect(Trees(es, isObject), if isObject then Arg else ArgItem) == EntryNodes(es, isObject)
    decreases |es|
  {
    if es != [] {
      var tag := if isObject then Arg else ArgItem;
      var e := EntryNode(es[0], isObject);
      CollectFirst(Node(OtherTag, "", es[0].open, [e]), Trees(es[1..], isObject), tag);
      CollectOne(e, tag);
      TreesCollected(es[1..], isObject);
    }
  }

  lemma CallCollected(es: seq<Entry>, open: bool)
    ensures Collect(CallTree(es, open).children, Arg) == EntryNodes(es, true)
  {
    CollectFirst(Leaf(OtherTag, ""), Trees(es, true), Arg);
    TreesCollected(es, true);
    assert [] + EntryNodes(es, true) == EntryNodes(es, true);
  }

  lemma ValueFirst(c: Node, cs: seq<Node>)
    ensures ValueOf([c] + cs) == if IsValueTag(c.tag) then Some(c) else ValueOf(cs)
  {
    assert ([c] + cs)[1..] == cs;
  }

  lemma NoValueBehind(open: bool)
    ensures ValueOf([Node(OtherTag, "", open, [])]) == None
  {
    assert [Node(OtherTag, "", open, [])][1..] == [];
  }

  lemma EntryValue(e: Entry, isObject: bool)
    ensures ValueOf(EntryNode(e, isObject).children)
         == if e.value.Some? then Some(TreeOf(e.value.value)) else None
  {
    var close := [Node(OtherTag, "", e.open, [])];
    var behind := (if e.value.Some? then [TreeOf(e.value.value)] else []) + close;
    NoValueBehind(e.open);
    if e.value.Some? {
      ValueFirst(TreeOf(e.value.value), close);
    }
    if e.name.Some? {
      ValueFirst(Node(OtherTag, "", false, [Leaf(ArgName, e.name.value)]), behind);
    } else {
      assert [] + behind == behind;
    }
  }

  lemma EntryName(e: Entry, isObject: bool)
    ensures e.name.Some? ==> NameOf(EntryNode(e, isObject)) == Some(Leaf(ArgName, e.name.value))
  {
    if e.name.Some? {
      var cs := EntryNode(e, isObject).children;
      assert cs[0] == Node(OtherTag, "", false, [Leaf(ArgName, e.name.value)]);
      assert FindByTag(cs[0].children, ArgName, 2) == Some(Leaf(ArgName, e.name.value));
    }
  }

  lemma NoName(e: Entry)
    requires e.name.None? && e.value.None?
    ensures NameOf(EntryNode(e, true)) == None
  {
    var cs := EntryNode(e, true).children;
    assert cs == [Node(OtherTag, "", e.open, [])];
    assert cs[0].children == [] && cs[1..] == [];
    assert FindByTag([], ArgName, 2) == None && FindByTag([], ArgName, 3) == None;
  }

  // ----- What is owed, and the call with its end -----

  function Owed(v: Given): string
    decreases v, 1
  {
    match v
    case Quoted(_) => "\""
    case Verbatim(_, rest) => rest
    case Members(es) => OwedLast(es) + "}"
    case Items(es) => OwedLast(es) + "]"
  }

  function OwedLast(es: seq<Entry>): string
    decreases es, 0
  {
    if es == [] then "" else OwedEntry(es[|es| - 1])
  }

  /** A value of which no text has been read; a verbatim one without text may still become
      anything. */
  predicate NotBegun(v: Option<Given>) {
    v.None? || (v.value.Verbatim? && v.value.s == "")
  }

  /** A name without a value owes `null`. */
  function OwedEntry(e: Entry): string
    decreases e, 2
  {
    if !e.open then ""
    else if !NotBegun(e.value) then Owed(e.value.value)
    else if e.name.Some? then "null"
    else ""
  }

  function Ended(v: Given): Given
    decreases v, 1
  {
    match v
    case Quoted(_) => v
    case Verbatim(s, rest) => Verbatim(s + rest, "")
    case Members(es) => Members(EndedEntries(es))
    case Items(es) => Items(EndedEntries(es))
  }

  /** Attempts are dropped. */
  function EndedEntries(es: seq<Entry>): seq<Entry>
    decreases es, 0
  {
    if es == [] then []
    else if |es| == 1 then if es[0].open && es[0].name.None? && NotBegun(es[0].value) then [] else [EndedEntry(es[0])]
    else [es[0]] + EndedEntries(es[1..])
  }

  function EndedEntry(e: Entry): Entry
    decreases e, 2
  {
    if !e.open then e
    else Entry(e.name, Some(if NotBegun(e.value) then Verbatim("null", "") else Ended(e.value.value)), false)
  }

  /** The value of a complete call. */
  function Meaning(v: Given): Json
    requires Complete(v)
    decreases v, 1
  {
    match v
    case Quoted(s) => JsonReader.Str(s)
    case Verbatim(s, _) => JsonReader.ReadValue(s).value.0
    case Members(es) => JsonReader.Obj(MemberList(es))
    case Items(es) => JsonReader.Arr(ItemList(es))
  }

  function MemberMeaning(e: Entry): (string, Json)
    requires CompleteEntry(e, true)
    decreases e, 2
  {
    (e.name.value, Meaning(e.value.value))
  }

  function ItemMeaning(e: Entry): Json
    requires CompleteEntry(e, false)
    decreases e, 2
  {
    Meaning(e.value.value)
  }

  function MemberList(es: seq<Entry>): seq<(string, Json)>
    requires AllComplete(es, true)
    decreases es, 0
  {
    if es == [] then [] else [MemberMeaning(es[0])] + MemberList(es[1..])
  }

  function ItemList(es: seq<Entry>): seq<Json>
    requires AllComplete(es, false)
    decreases es, 0
  {
    if es == [] then [] else [ItemMeaning(es[0])] + ItemList(es[1..])
  }

  // ----- Printing stops short by exactly that -----

  function Shown(v: Option<Given>, closed: bool): string {
    ValueToJson(if v.Some? then Some(TreeOf(v.value)) else None, closed)
  }

  function ShownEntries(es: seq<Entry>, isObject: bool, addComma: bool): string {
    EntriesToJson(EntryNodes(es, isObject), isObject, addComma)
  }

  lemma EntryShown(e: Entry, isObject: bool)
    requires e.name.Some? ==> isObject
    requires e.name.None? && isObject ==> e.value.None?
    ensures EntryToJson(EntryNode(e, isObject), isObject)
         == if !isObject then Shown(e.value, !e.open)
            else if e.name.Some? then (Dump(e.name.value) + ":") + Shown(e.value, !e.open)
            else ""
  {
    EntryValue(e, isObject);
    EntryName(e, isObject);
    if isObject && e.name.None? {
      NoName(e);
    }
  }

  lemma ContainerShown(v: Given, closed: bool)
    requires v.Members? || v.Items?
    ensures Shown(Some(v), closed)
         == if v.Members? then "{" + ShownEntries(v.es, true, false) + Unless(!closed, "}")
            else "[" + ShownEntries(v.es, false, false) + Unless(!closed, "]")
  {
    TreesCollected(v.es, v.Members?);
    assert Shown(Some(v), closed) == ContainerToJson(TreeOf(v), v.Members?, closed);
  }

  lemma SomethingShown(v: Given, closed: bool)
    requires (Cut(v) && !NotBegun(Some(v))) || Complete(v)
    ensures Shown(Some(v), closed) != ""
  {
    match v
    case Quoted(_) =>
    case Verbatim(s, rest) => assert s != "" by { NothingReads(s); }
    case Members(_) => ContainerShown(v, closed);
    case Items(_) => ContainerShown(v, closed);
  }

  lemma MoreEntries(e: Entry, es: seq<Entry>, isObject: bool, addComma: bool)
    ensures ShownEntries([e] + es, isObject, addComma)
         == var text := EntryToJson(EntryNode(e, isObject), isObject);
            if text == "" then ShownEntries(es, isObject, addComma)
            else ((if addComma then "," else "") + text) + ShownEntries(es, isObject, true)
  {
    assert ([e] + es)[0] == e && ([e] + es)[1..] == es;
    var nodes := EntryNodes([e] + es, isObject);
    assert nodes == [EntryNode(e, isObject)] + EntryNodes(es, isObject);
    assert nodes[0] == EntryNode(e, isObject) && nodes[1..] == EntryNodes(es, isObject);
  }

  lemma OnlyEntry(e: Entry, isObject: bool, addComma: bool)
    ensures ShownEntries([e], isObject, addComma)
         == var text := EntryToJson(EntryNode(e, isObject), isObject);
            if text == "" then "" else (if addComma then "," else "") + text
  {
    var text := EntryToJson(EntryNode(e, isObject), isObject);
    assert [e] + [] == [e];
    MoreEntries(e, [], isObject, addComma);
    assert ((if addComma then "," else "") + text) + "" == (if addComma then "," else "") + text;
  }

  lemma CompleteShows(e: Entry, isObject: bool)
    requires CompleteEntry(e, isObject)
    ensures EntryToJson(EntryNode(e, isObject), isObject) != ""
  {
    EntryShown(e, isObject);
    SomethingShown(e.value.value, true);
  }

  lemma NullComplete()
    ensures Complete(Verbatim("null", "")) && Shown(Some(Verbatim("null", "")), true) == "null"
    ensures JsonReader.IsJson("null")
  {
    JsonReader.ReadScalarValue("null", "");
    assert "null" + "" == "null";
  }

  /** The text of an entry that was not only attempted. */
  lemma {:induction false} EntryEnds(e: Entry, isObject: bool)
    requires CutEntry(e, isObject) && !(e.open && e.name.None? && NotBegun(e.value))
    ensures CompleteEntry(EndedEntry(e), isObject)
    ensures EntryToJson(EntryNode(e, isObject), isObject) + OwedEntry(e)
         == EntryToJson(EntryNode(EndedEntry(e), isObject), isObject)
    ensures EntryToJson(EntryNode(e, isObject), isObject) != ""
    decreases e, 2
  {
    EntryShown(e, isObject);
    EntryShown(EndedEntry(e), isObject);
    NullComplete();
    if !e.open {
      CompleteShows(e, isObject);
    } else {
      if NotBegun(e.value) {
        assert Shown(e.value, false) == "" && "" + "null" == "null";
      } else {
        PrintingStopsShort(e.value.value);
        SomethingShown(e.value.value, false);
      }
      if e.name.Some? {
        Associative(Dump(e.name.value) + ":", Shown(e.value, false), OwedEntry(e));
      }
    }
  }

  lemma LastEntryEnds(e: Entry, isObject: bool, addComma: bool)
    requires CutEntry(e, isObject) && !(e.open && e.name.None? && NotBegun(e.value))
    requires EntryToJson(EntryNode(e, isObject), isObject) + OwedEntry(e)
          == EntryToJson(EntryNode(EndedEntry(e), isObject), isObject)
    requires EntryToJson(EntryNode(e, isObject), isObject) != ""
    ensures ShownEntries([e], isObject, addComma) + OwedEntry(e) == ShownEntries([EndedEntry(e)], isObject, addComma)
  {
    OnlyEntry(e, isObject, addComma);
    OnlyEntry(EndedEntry(e), isObject, addComma);
    Associative(if addComma then "," else "", EntryToJson(EntryNode(e, isObject), isObject), OwedEntry(e));
  }

  lemma AttemptShowsNothing(e: Entry, isObject: bool, addComma: bool)
    requires CutEntry(e, isObject) && e.open && e.name.None? && NotBegun(e.value)
    ensures ShownEntries([e], isObject, addComma) == "" && OwedEntry(e) == ""
    ensures ShownEntries([], isObject, addComma) == ""
  {
    EntryShown(e, isObject);
    OnlyEntry(e, isObject, addComma);
  }

  lemma {:induction false} EntriesEnd(es: seq<Entry>, isObject: bool, addComma: bool)
    requires CutEntries(es, isObject)
    ensures AllComplete(EndedEntries(es), isObject)
    ensures ShownEntries(es, isObject, addComma) + OwedLast(es) == ShownEntries(EndedEntries(es), isObject, addComma)
    decreases es, 0
  {
    if es == [] {
    } else if |es| == 1 {
      var e := es[0];
      assert es == [e];
      if e.open && e.name.None? && NotBegun(e.value) {
        AttemptShowsNothing(e, isObject, addComma);
      } else {
        EntryEnds(e, isObject);
        LastEntryEnds(e, isObject, addComma);
        assert [EndedEntry(e)][1..] == [];
      }
    } else {
      EntriesEnd(es[1..], isObject, true);
      LaterEntriesEnd(es, isObject, addComma);
    }
  }

  lemma LaterEntriesEnd(es: seq<Entry>, isObject: bool, addComma: bool)
    requires |es| > 1 && CompleteEntry(es[0], isObject) && AllComplete(EndedEntries(es[1..]), isObject)
    requires ShownEntries(es[1..], isObject, true) + OwedLast(es[1..])
          == ShownEntries(EndedEntries(es[1..]), isObject, true)
    ensures AllComplete(EndedEntries(es), isObject)
    ensures ShownEntries(es, isObject, addComma) + OwedLast(es) == ShownEntries(EndedEntries(es), isObject, addComma)
  {
    var e, more := es[0], EndedEntries(es[1..]);
    CompleteShows(e, isObject);
    MoreEntries(e, es[1..], isObject, addComma);
    MoreEntries(e, more, isObject, addComma);
    assert es == [e] + es[1..] && EndedEntries(es) == [e] + more && ([e] + more)[1..] == more;
    assert OwedLast(es) == OwedLast(es[1..]);
    Associative((if addComma then "," else "") + EntryToJson(EntryNode(e, isObject), isObject),
                ShownEntries(es[1..], isObject, true), OwedLast(es));
  }

  lemma Enclosed(open: string, p: string, owed: string, close: string, whole: string)
    requires p + owed == whole
    ensures (open + p + "") + (owed + close) == open + whole + close
  {
  }

  /** What is printed of an open value is what the value prints once everything on its last
      path has ended, up to exactly the quotes and brackets owed there. */
  lemma {:induction false} PrintingStopsShort(v: Given)
    requires Cut(v)
    ensures Complete(Ended(v))
    ensures Shown(Some(v), false) + Owed(v) == Shown(Some(Ended(v)), true)
    decreases v, 1
  {
    match v
    case Quoted(s) => QuoteEnds(s);
    case Verbatim(_, _) =>
    case Members(es) =>
      EntriesEnd(es, true, false);
      ContainerShown(v, false);
      ContainerShown(Ended(v), true);
      Enclosed("{", ShownEntries(es, true, false), OwedLast(es), "}", ShownEntries(EndedEntries(es), true, false));
    case Items(es) =>
      EntriesEnd(es, false, false);
      ContainerShown(v, false);
      ContainerShown(Ended(v), true);
      Enclosed("[", ShownEntries(es, false, false), OwedLast(es), "]", ShownEntries(EndedEntries(es), false, false));
  }

  lemma QuoteEnds(s: string)
    ensures Shown(Some(Quoted(s)), false) + "\"" == Shown(Some(Quoted(s)), true)
  {
    assert ("\"" + EscapeInner(s) + "") + "\"" == "\"" + EscapeInner(s) + "\"";
  }

  // ----- Reading it back -----

  lemma EntryComplete(e: Entry, isObject: bool)
    requires CompleteEntry(e, isObject)
    requires var v := TreeOf(e.value.value);
             ValueSettled(v) && ValueWhole(v) && ValueMeaning(v) == Meaning(e.value.value)
    ensures var n := EntryNode(e, isObject);
            && EntrySettled(n) && EntryWhole(n, isObject) && Prints(n, isObject)
            && EntryMeaning(n, isObject) == Meaning(e.value.value)
            && (isObject ==> NameOf(n).value.text == e.name.value)
  {
    EntryValue(e, isObject);
    EntryName(e, isObject);
  }

  lemma {:induction false} MembersComplete(es: seq<Entry>)
    requires AllComplete(es, true)
    ensures var ns := EntryNodes(es, true);
            EntriesSettled(ns) && EntriesWhole(ns, true) && MemberMeanings(ns) == MemberList(es)
    decreases es, 0
  {
    if es != [] {
      MemberComplete(es[0]);
      MembersComplete(es[1..]);
      MemberFirst(EntryNode(es[0], true), EntryNodes(es[1..], true));
    }
  }

  lemma MemberFirst(n: Node, ns: seq<Node>)
    requires EntrySettled(n) && EntryWhole(n, true) && Prints(n, true) && EntriesSettled(ns) && EntriesWhole(ns, true)
    ensures EntriesSettled([n] + ns) && EntriesWhole([n] + ns, true)
    ensures MemberMeanings([n] + ns) == [(NameOf(n).value.text, EntryMeaning(n, true))] + MemberMeanings(ns)
  {
    assert ([n] + ns)[0] == n && ([n] + ns)[1..] == ns;
  }

  lemma ItemFirst(n: Node, ns: seq<Node>)
    requires EntrySettled(n) && EntryWhole(n, false) && Prints(n, false)
    requires EntriesSettled(ns) && EntriesWhole(ns, false)
    ensures EntriesSettled([n] + ns) && EntriesWhole([n] + ns, false)
    ensures ItemMeanings([n] + ns) == [EntryMeaning(n, false)] + ItemMeanings(ns)
  {
    assert ([n] + ns)[0] == n && ([n] + ns)[1..] == ns;
  }

  lemma {:induction false} MemberComplete(e: Entry)
    requires CompleteEntry(e, true)
    ensures var n := EntryNode(e, true);
            && EntrySettled(n) && EntryWhole(n, true) && Prints(n, true)
            && (NameOf(n).value.text, EntryMeaning(n, true)) == MemberMeaning(e)
    decreases e, 2
  {
    ValueComplete(e.value.value);
    EntryComplete(e, true);
  }

  lemma {:induction false} ItemComplete(e: Entry)
    requires CompleteEntry(e, false)
    ensures var n := EntryNode(e, false);
            EntrySettled(n) && EntryWhole(n, false) && Prints(n, false) && EntryMeaning(n, false) == ItemMeaning(e)
    decreases e, 2
  {
    ValueComplete(e.value.value);
    EntryComplete(e, false);
  }

  lemma {:induction false} ItemsComplete(es: seq<Entry>)
    requires AllComplete(es, false)
    ensures var ns := EntryNodes(es, false);
            EntriesSettled(ns) && EntriesWhole(ns, false) && ItemMeanings(ns) == ItemList(es)
    decreases es, 0
  {
    if es != [] {
      ItemComplete(es[0]);
      ItemsComplete(es[1..]);
      ItemFirst(EntryNode(es[0], false), EntryNodes(es[1..], false));
    }
  }

  /** The tree of a complete value means that value. */
  lemma {:induction false} ValueComplete(v: Given)
    requires Complete(v)
    ensures var t := TreeOf(v); ValueSettled(t) && ValueWhole(t) && ValueMeaning(t) == Meaning(v)
    decreases v, 1
  {
    match v
    case Quoted(_) =>
    case Verbatim(_, _) =>
    case Members(es) =>
      MembersComplete(es);
      TreesCollected(es, true);
    case Items(es) =>
      ItemsComplete(es);
      TreesCollected(es, false);
  }

  /** A complete call prints JSON for exactly the members it gave, at every depth. */
  lemma GivenIsPrinted(es: seq<Entry>)
    requires AllComplete(es, true)
    ensures JsonReader.ReadValue(ContainerToJson(CallTree(es, false), true, true))
         == Some((JsonReader.Obj(MemberList(es)), ""))
  {
    CallCollected(es, false);
    MembersComplete(es);
    CompleteCallReadsBack(CallTree(es, false));
  }

  /** The text printed of an open call holds everything given so far: with what its last
      path owes, a JSON reader takes it back to the members of the call ended there. */
  lemma PrintedSoFarReadsBack(es: seq<Entry>)
    requires CutEntries(es, true)
    ensures AllComplete(EndedEntries(es), true)
    ensures JsonReader.ReadValue(ContainerToJson(CallTree(es, true), true, false) + (OwedLast(es) + "}"))
         == Some((JsonReader.Obj(MemberList(EndedEntries(es))), ""))
  {
    EntriesEnd(es, true, false);
    CallCollected(es, true);
    CallCollected(EndedEntries(es), false);
    Enclosed("{", ShownEntries(es, true, false), OwedLast(es), "}", ShownEntries(EndedEntries(es), true, false));
    GivenIsPrinted(EndedEntries(es));
  }
}
