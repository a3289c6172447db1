/**
 A completed member that another alternative of a schema reads again: the first printed value
 that changes its kind decides whether the printed arguments are kept, whatever follows it
 before and after.
 */
module MinimaxAlternatives {
  import opened Text
  import opened JsonText
  import opened MinimaxPrinter
  import opened MinimaxKinds

  // ----- Reading again -----

  /** Two values of different kinds, neither of them a verbatim value without text. */
  predicate OtherKind(x: Node, y: Node) {
    && IsValueTag(x.tag) && IsValueTag(y.tag) && x.tag != y.tag
    && (x.tag == ArgValue ==> x.text != "") && (y.tag == ArgValue ==> y.text != "")
  }

  /** A value that is read with another kind, or an object or array that holds one. */
  predicate ValueReread(x: Node, y: Node)
    decreases Size(x), 1
  {
    OtherKind(x, y)
    || (IsContainer(x.tag) && x.tag == y.tag && ChildrenReread(x.children, y.children, x.tag == ArgObject))
  }

  /** An entry whose value is read again; a member keeps its name. */
  predicate EntryReread(e: Node, f: Node, isObject: bool)
    decreases Size(e), 0
  {
    && (isObject ==> FindByTag(e.children, ArgName, 3).Some?
                     && FindByTag(e.children, ArgName, 3) == FindByTag(f.children, ArgName, 3))
    && ValueOf(e.children).Some? && ValueOf(f.children).Some?
    && ValueReread(ValueOf(e.children).value, ValueOf(f.children).value)
  }

  /** Up to the first entry that is read again nothing differs; behind it anything may. */
  predicate ChildrenReread(ps: seq<Node>, cs: seq<Node>, isObject: bool)
    decreases SizeAll(ps), 1
  {
    ps != [] && cs != [] &&
    if ps[0] == cs[0] then ChildrenReread(ps[1..], cs[1..], isObject)
    else if ps[0].tag == EntryTag(isObject) then cs[0].tag == ps[0].tag && EntryReread(ps[0], cs[0], isObject)
    else cs[0].tag != EntryTag(isObject) && ChildrenReread(ps[0].children, cs[0].children, isObject)
  }

  lemma {:induction false} RereadMore(a: seq<Node>, b: seq<Node>, x: seq<Node>, y: seq<Node>, isObject: bool)
    requires ChildrenReread(a, b, isObject)
    ensures ChildrenReread(a + x, b + y, isObject)
    decreases |a|
  {
    assert (a + x)[0] == a[0] && (a + x)[1..] == a[1..] + x;
    assert (b + y)[0] == b[0] && (b + y)[1..] == b[1..] + y;
    if a[0] == b[0] {
      RereadMore(a[1..], b[1..], x, y, isObject);
    }
  }

  lemma {:induction false} RereadAfter(h: seq<Node>, a: seq<Node>, b: seq<Node>, isObject: bool)
    requires ChildrenReread(a, b, isObject)
    ensures ChildrenReread(h + a, h + b, isObject)
    decreases |h|
  {
    if h == [] {
      assert h + a == a && h + b == b;
    } else {
      assert (h + a)[0] == h[0] == (h + b)[0];
      assert (h + a)[1..] == h[1..] + a && (h + b)[1..] == h[1..] + b;
      RereadAfter(h[1..], a, b, isObject);
    }
  }

  /** The entries collected from a container that is read again. */
  lemma {:induction false} CollectedReread(ps: seq<Node>, cs: seq<Node>, isObject: bool)
    requires ChildrenReread(ps, cs, isObject)
    ensures ChildrenReread(Collect(ps, EntryTag(isObject)), Collect(cs, EntryTag(isObject)), isObject)
    decreases SizeAll(ps)
  {
    var tag, p, c := EntryTag(isObject), ps[0], cs[0];
    var hp := if p.tag == tag then [p] else Collect(p.children, tag);
    var hc := if c.tag == tag then [c] else Collect(c.children, tag);
    if p == c {
      CollectedReread(ps[1..], cs[1..], isObject);
      RereadAfter(hp, Collect(ps[1..], tag), Collect(cs[1..], tag), isObject);
    } else {
      if p.tag != tag {
        CollectedReread(p.children, c.children, isObject);
      }
      RereadMore(hp, hc, Collect(ps[1..], tag), Collect(cs[1..], tag), isObject);
    }
  }

  // ----- The value that is read again -----

  /** The first value printed with another kind: as it was and as it is, open or closed, and
      what stands behind it before and after. */
  datatype Shift = Shift(was: Node, wasClosed: bool, after: string, now: Node, closed: bool, behind: string)
  {
    function Onwards(x: string, y: string): Shift {
      this.(after := after + x, behind := behind + y)
    }
  }

  function ValueShift(x: Node, y: Node, xClosed: bool, yClosed: bool): Shift
    requires ValueReread(x, y)
    decreases Size(x), 2
  {
    if x.tag != y.tag then Shift(x, xClosed, "", y, yClosed, "")
    else ContainerShift(x, y, x.tag == ArgObject, xClosed, yClosed)
  }

  function ContainerShift(p: Node, c: Node, isObject: bool, pClosed: bool, cClosed: bool): Shift
    requires ChildrenReread(p.children, c.children, isObject)
    decreases Size(p), 1
  {
    var tag, close := EntryTag(isObject), if isObject then "}" else "]";
    CollectedReread(p.children, c.children, isObject);
    CollectTags(p.children, tag);
    EntriesShift(Collect(p.children, tag), Collect(c.children, tag), isObject)
      .Onwards(Unless(!pClosed, close), Unless(!cClosed, close))
  }

  function EntriesShift(es: seq<Node>, fs: seq<Node>, isObject: bool): Shift
    requires ChildrenReread(es, fs, isObject) && AllTagged(es, EntryTag(isObject))
    decreases SizeAll(es), 1
  {
    if es[0] == fs[0] then EntriesShift(es[1..], fs[1..], isObject)
    else
      EntryShift(es[0], fs[0], isObject)
        .Onwards(EntriesToJson(es[1..], isObject, true), EntriesToJson(fs[1..], isObject, true))
  }

  function EntryShift(e: Node, f: Node, isObject: bool): Shift
    requires EntryReread(e, f, isObject)
    decreases Size(e), 0
  {
    ValueShift(ValueOf(e.children).value, ValueOf(f.children).value, !e.isPartial, !f.isPartial)
  }

  predicate AllTagged(es: seq<Node>, tag: Tag) {
    forall i :: 0 <= i < |es| ==> es[i].tag == tag
  }

  /** What was printed from the value on starts what is printed from there on; only verbatim
      text can start like the text of another kind. */
  predicate ShiftKept(s: Shift) {
    if s.was.tag == ArgValue then s.was.text + s.after <= ValueToJson(Some(s.now), s.closed) + s.behind
    else s.now.tag == ArgValue && ValueToJson(Some(s.was), s.wasClosed) + s.after <= s.now.text + s.behind
  }

  lemma OtherKindKept(x: Node, y: Node, xClosed: bool, yClosed: bool, after: string, behind: string)
    requires OtherKind(x, y)
    ensures ValueToJson(Some(x), xClosed) + after <= ValueToJson(Some(y), yClosed) + behind
       <==> ShiftKept(Shift(x, xClosed, after, y, yClosed, behind))
  {
    if x.tag != ArgValue && y.tag != ArgValue {
      Opening(x, xClosed);
      Opening(y, yClosed);
      assert (ValueToJson(Some(x), xClosed) + after)[0] == OpeningOf(x.tag);
      assert (ValueToJson(Some(y), yClosed) + behind)[0] == OpeningOf(y.tag);
    }
  }

  lemma OnwardsTwice(s: Shift, x: string, y: string, x': string, y': string)
    ensures s.Onwards(x, y).Onwards(x', y') == s.Onwards(x + x', y + y')
  {
    Associative(s.after, x, x');
    Associative(s.behind, y, y');
  }

  lemma BothBehind(key: string, p: string, c: string, after: string, behind: string)
    ensures (key + p) + after <= (key + c) + behind <==> p + after <= c + behind
  {
    Associative(key, p, after);
    Associative(key, c, behind);
    PrefixCancel(key, p + after, c + behind);
  }

  /** A value that is read again prints something before and after. */
  lemma RereadPrints(x: Node, y: Node, xClosed: bool, yClosed: bool)
    requires ValueReread(x, y)
    ensures ValueToJson(Some(x), xClosed) != "" && ValueToJson(Some(y), yClosed) != ""
  {
    if x.tag != ArgValue {
      Opening(x, xClosed);
    }
    if y.tag != ArgValue {
      Opening(y, yClosed);
    }
  }

  // ----- The exact condition -----

  lemma {:induction false} ValueShifted(x: Node, y: Node, xClosed: bool, yClosed: bool, after: string, behind: string)
    requires ValueReread(x, y)
    ensures ValueToJson(Some(x), xClosed) + after <= ValueToJson(Some(y), yClosed) + behind
       <==> ShiftKept(ValueShift(x, y, xClosed, yClosed).Onwards(after, behind))
    decreases Size(x), 2
  {
    if x.tag != y.tag {
      OtherKindKept(x, y, xClosed, yClosed, after, behind);
      assert "" + after == after && "" + behind == behind;
    } else {
      ContainerShifted(x, y, x.tag == ArgObject, xClosed, yClosed, after, behind);
    }
  }

  lemma {:induction false} ContainerShifted(p: Node, c: Node, isObject: bool, pClosed: bool, cClosed: bool,
                                            after: string, behind: string)
    requires ChildrenReread(p.children, c.children, isObject)
    ensures ContainerToJson(p, isObject, pClosed) + after <= ContainerToJson(c, isObject, cClosed) + behind
       <==> ShiftKept(ContainerShift(p, c, isObject, pClosed, cClosed).Onwards(after, behind))
    decreases Size(p), 1
  {
    var tag, open, close := EntryTag(isObject), if isObject then "{" else "[", if isObject then "}" else "]";
    var es, fs := Collect(p.children, tag), Collect(c.children, tag);
    var x, y := Unless(!pClosed, close), Unless(!cClosed, close);
    CollectedReread(p.children, c.children, isObject);
    CollectTags(p.children, tag);
    EntriesShifted(es, fs, isObject, false, x + after, y + behind);
    Enclosed(open, EntriesToJson(es, isObject, false), EntriesToJson(fs, isObject, false), x, y, after, behind);
    OnwardsTwice(EntriesShift(es, fs, isObject), x, y, after, behind);
  }

  lemma Enclosed(open: string, p: string, c: string, x: string, y: string, after: string, behind: string)
    ensures (open + p + x) + after <= (open + c + y) + behind <==> p + (x + after) <= c + (y + behind)
  {
    Associative(open + p, x, after);
    Associative(open + c, y, behind);
    BothBehind(open, p, c, x + after, y + behind);
  }

  lemma {:induction false} EntriesShifted(es: seq<Node>, fs: seq<Node>, isObject: bool, addComma: bool,
                                          after: string, behind: string)
    requires ChildrenReread(es, fs, isObject) && AllTagged(es, EntryTag(isObject))
    ensures EntriesToJson(es, isObject, addComma) + after <= EntriesToJson(fs, isObject, addComma) + behind
       <==> ShiftKept(EntriesShift(es, fs, isObject).Onwards(after, behind))
    decreases SizeAll(es), 2
  {
    var sep, text := if addComma then "," else "", EntryToJson(es[0], isObject);
    if es[0] == fs[0] {
      EntriesShifted(es[1..], fs[1..], isObject, addComma || text != "", after, behind);
      if text != "" {
        BothBehind(sep + text, EntriesToJson(es[1..], isObject, true), EntriesToJson(fs[1..], isObject, true),
                   after, behind);
      }
    } else {
      FirstShifted(es, fs, isObject, addComma, after, behind);
    }
  }

  lemma {:induction false} FirstShifted(es: seq<Node>, fs: seq<Node>, isObject: bool, addComma: bool,
                                        after: string, behind: string)
    requires es != [] && fs != [] && EntryReread(es[0], fs[0], isObject)
    ensures var x, y := EntriesToJson(es[1..], isObject, true), EntriesToJson(fs[1..], isObject, true);
            (EntriesToJson(es, isObject, addComma) + after <= EntriesToJson(fs, isObject, addComma) + behind
             <==> ShiftKept(EntryShift(es[0], fs[0], isObject).Onwards(x, y).Onwards(after, behind)))
    decreases Size(es[0]), 1
  {
    var sep, e, f := if addComma then "," else "", EntryToJson(es[0], isObject), EntryToJson(fs[0], isObject);
    var x, y := EntriesToJson(es[1..], isObject, true), EntriesToJson(fs[1..], isObject, true);
    EntryShifted(es[0], fs[0], isObject, x + after, y + behind);
    Enclosed(sep, e, f, x, y, after, behind);
    OnwardsTwice(EntryShift(es[0], fs[0], isObject), x, y, after, behind);
  }

  lemma {:induction false} EntryShifted(e: Node, f: Node, isObject: bool, after: string, behind: string)
    requires EntryReread(e, f, isObject)
    ensures EntryToJson(e, isObject) != "" && EntryToJson(f, isObject) != ""
    ensures EntryToJson(e, isObject) + after <= EntryToJson(f, isObject) + behind
       <==> ShiftKept(EntryShift(e, f, isObject).Onwards(after, behind))
    decreases Size(e), 0
  {
    var v, w := ValueOf(e.children), ValueOf(f.children);
    ValueShifted(v.value, w.value, !e.isPartial, !f.isPartial, after, behind);
    RereadPrints(v.value, w.value, !e.isPartial, !f.isPartial);
    EntryPrinted(e, isObject);
    EntryPrinted(f, isObject);
    BothBehind(KeyOf(e, isObject), ValueToJson(v, !e.isPartial), ValueToJson(w, !f.isPartial), after, behind);
  }

  /** The arguments printed for a call are a prefix of those printed when another alternative
      reads it again if and only if the first value with another kind keeps its text. */
  lemma RereadArgumentsKeptExactly(p: Node, c: Node)
    requires ChildrenReread(p.children, c.children, true)
    ensures ContainerToJson(p, true, !p.isPartial) <= ContainerToJson(c, true, !c.isPartial)
       <==> ShiftKept(ContainerShift(p, c, true, !p.isPartial, !c.isPartial))
  {
    var a, b := ContainerToJson(p, true, !p.isPartial), ContainerToJson(c, true, !c.isPartial);
    ContainerShifted(p, c, true, !p.isPartial, !c.isPartial, "", "");
    assert a + "" == a && b + "" == b;
    NothingOnwards(ContainerShift(p, c, true, !p.isPartial, !c.isPartial));
  }

  lemma OneEntryShift(e: Node, f: Node, isObject: bool)
    requires EntryReread(e, f, isObject) && e != f && e.tag == f.tag == EntryTag(isObject)
    ensures ChildrenReread([e], [f], isObject) && EntriesShift([e], [f], isObject) == EntryShift(e, f, isObject)
  {
    NothingOnwards(EntryShift(e, f, isObject));
    assert [e][1..] == [] && [f][1..] == [];
  }

  /** A member read as a string, and then, by another alternative, as a number. */
  lemma ReadAgainRetracts()
    ensures var name := Node(ArgName, "x", false, []);
            var p := Node(OtherTag, "", true, [Node(Arg, "5", false, [name, Node(ArgStringValue, "5", false, [])])]);
            var c := Node(OtherTag, "", true, [Node(Arg, "5", false, [name, Node(ArgValue, "5", false, [])])]);
            && ChildrenReread(p.children, c.children, true)
            && !(ContainerToJson(p, true, false) <= ContainerToJson(c, true, false))
  {
    var name := Node(ArgName, "x", false, []);
    var x, y := Node(ArgStringValue, "5", false, []), Node(ArgValue, "5", false, []);
    var e, f := Node(Arg, "5", false, [name, x]), Node(Arg, "5", false, [name, y]);
    assert ValueOf([name, x][1..]) == Some(x) && ValueOf([name, y][1..]) == Some(y);
    assert ValueOf(e.children) == Some(x) && ValueOf(f.children) == Some(y) && OtherKind(x, y);
    assert FindByTag(e.children, ArgName, 3) == Some(name) == FindByTag(f.children, ArgName, 3);
    assert Collect([e][1..], Arg) == [] == Collect([f][1..], Arg);
    assert Collect([e], Arg) == [e] && Collect([f], Arg) == [f];
    var p, c := Node(OtherTag, "", true, [e]), Node(OtherTag, "", true, [f]);
    RereadArgumentsKeptExactly(p, c);
    Opening(x, true);
    OneEntryShift(e, f, true);
    var s := ContainerShift(p, c, true, false, false);
    assert EntryShift(e, f, true) == ValueShift(x, y, true, true);
    assert s.was == x && s.wasClosed && s.now == y;
    assert (ValueToJson(Some(x), true) + s.after)[0] == '"' && ("5" + s.behind)[0] == '5';
  }

  lemma NothingOnwards(s: Shift)
    ensures s.Onwards("", "") == s
  {
    assert s.after + "" == s.after && s.behind + "" == s.behind;
  }
}
