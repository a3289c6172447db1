/**
 Printing the parse tree of a MiniMax tool call as JSON while it grows. Members and
 items are collected from arbitrary depth and skipped while they print nothing, so the
 promise that printed text is kept rests on where the search stops.
 */
module MinimaxPrinter {
  import opened Text
  import opened JsonText

  /** The tags the printer looks for. */
  datatype Tag = Arg | ArgName | ArgValue | ArgStringValue | ArgObject | ArgArray | ArgItem | OtherTag

  datatype Node = Node(tag: Tag, text: string, isPartial: bool, children: seq<Node>)

  function Size(n: Node): (s: nat)
    ensures s == 1 + SizeAll(n.children)
    decreases n, 1
  {
    1 + SizeAll(n.children)
  }

  function SizeAll(cs: seq<Node>): nat
    decreases cs, 0
  {
    if cs == [] then 0 else Size(cs[0]) + SizeAll(cs[1..])
  }

  /** `find_by_tag`: the first descendant with the tag, in document order, at most
      `depth` levels down. */
  function FindByTag(cs: seq<Node>, tag: Tag, depth: nat): Option<Node>
    decreases SizeAll(cs)
  {
    if cs == [] then None
    else if cs[0].tag == tag then Some(cs[0])
    else
      var below := if depth > 1 then FindByTag(cs[0].children, tag, depth - 1) else None;
      if below.Some? then below else FindByTag(cs[1..], tag, depth)
  }

  lemma {:induction false} SizeAllAppend(a: seq<Node>, b: seq<Node>)
    ensures SizeAll(a + b) == SizeAll(a) + SizeAll(b)
    decreases |a|
  {
    if a == [] {
      assert a + b == b;
    } else {
      assert (a + b)[1..] == a[1..] + b;
      SizeAllAppend(a[1..], b);
    }
  }

  /** `minimax_m3_collect`: the topmost descendants with the tag. */
  function Collect(cs: seq<Node>, tag: Tag): (r: seq<Node>)
    ensures SizeAll(r) <= SizeAll(cs)
    decreases SizeAll(cs)
  {
    if cs == [] then []
    else
      var here := if cs[0].tag == tag then [cs[0]] else Collect(cs[0].children, tag);
      SizeAllAppend(here, Collect(cs[1..], tag));
      here + Collect(cs[1..], tag)
  }

  predicate IsValueTag(tag: Tag) {
    tag == ArgValue || tag == ArgStringValue || tag == ArgObject || tag == ArgArray
  }

  function ValueOf(cs: seq<Node>): (r: Option<Node>)
    ensures r.Some? ==> Size(r.value) <= SizeAll(cs)
  {
    if cs == [] then None else if IsValueTag(cs[0].tag) then Some(cs[0]) else ValueOf(cs[1..])
  }

  function Unless(open: bool, close: string): string {
    if open then "" else close
  }

  function ValueToJson(v: Option<Node>, closed: bool): string
    decreases if v.Some? then Size(v.value) else 0, 1
  {
    if v.None? then ""
    else if v.value.tag == ArgObject then ContainerToJson(v.value, true, closed)
    else if v.value.tag == ArgArray then ContainerToJson(v.value, false, closed)
    else if v.value.tag == ArgStringValue then "\"" + EscapeInner(v.value.text) + Unless(!closed, "\"")
    else v.value.text
  }

  function MemberToJson(n: Node): string
    decreases Size(n), 1
  {
    var name := FindByTag(n.children, ArgName, 3);
    if name.None? then ""
    else (Dump(name.value.text) + ":") + ValueToJson(ValueOf(n.children), !n.isPartial)
  }

  function EntryToJson(n: Node, isObject: bool): string
    decreases Size(n), 2
  {
    if isObject then MemberToJson(n) else ValueToJson(ValueOf(n.children), !n.isPartial)
  }

  function EntriesToJson(es: seq<Node>, isObject: bool, addComma: bool): string
    decreases SizeAll(es), 3
  {
    if es == [] then ""
    else
      var text := EntryToJson(es[0], isObject);
      if text == "" then EntriesToJson(es[1..], isObject, addComma)
      else ((if addComma then "," else "") + text) + EntriesToJson(es[1..], isObject, true)
  }

  function ContainerToJson(n: Node, isObject: bool, closed: bool): string
    decreases Size(n), 0
  {
    var entries := Collect(n.children, if isObject then Arg else ArgItem);
    (if isObject then "{" else "[") + EntriesToJson(entries, isObject, false)
    + Unless(!closed, if isObject then "}" else "]")
  }

  // ----- Growing trees -----

  /** A node without names and values prints nothing. It may stand for an element that was
      only attempted: more input can turn it into something else, or drop it. */
  predicate Mute(n: Node)
    decreases n, 1
  {
    n.tag != ArgName && !IsValueTag(n.tag) && AllMute(n.children)
  }

  predicate AllMute(cs: seq<Node>)
    decreases cs, 0
  {
    cs == [] || (Mute(cs[0]) && AllMute(cs[1..]))
  }

  /** Values end where the input ends or a closing tag may begin, and objects and arrays
      where the next element would, so they are not partial and still grow. */
  predicate MayGrow(n: Node) {
    n.isPartial || IsValueTag(n.tag)
  }

  /** Only verbatim values and strings print their text. The text of an object or array may even
      shrink: at the end of the input it holds the attempt at another element, which turns out
      to be white space or the closing tag. */
  predicate TextGrows(p: Node, c: Node) {
    p.tag == ArgValue || p.tag == ArgStringValue ==> p.text <= c.text
  }

  /** A verbatim value without text: at the end of the input the first alternative of a
      schema is taken, and what comes next decides which one it is. */
  predicate NotBegun(n: Node) {
    n.tag == ArgValue && n.text == "" && AllMute(n.children)
  }

  /** `c` is what `p` may have become after more input. Names are matched atomically, so
      they never grow. */
  ghost predicate Extends(p: Node, c: Node)
    decreases p, 1
  {
    || p == c
    || (NotBegun(p) && IsValueTag(c.tag))
    || (MayGrow(p) && p.tag == c.tag && p.tag != ArgName && TextGrows(p, c)
        && ChildrenExtend(p.children, c.children))
  }

  ghost predicate ChildrenExtend(ps: seq<Node>, cs: seq<Node>)
    decreases ps, 0
  {
    AllMute(ps) || (cs != [] &&
                    if AllMute(ps[1..]) then Extends(ps[0], cs[0])
                    else ps[0] == cs[0] && ChildrenExtend(ps[1..], cs[1..]))
  }

  /** A cut inside a closing tag: the array held an attempt at another item, which vanishes. */
  lemma AttemptVanishes()
    ensures var item := Node(OtherTag, "I", false, [Node(ArgItem, "I", false, [Node(ArgValue, "1", false, [])])]);
            var tried := Node(OtherTag, "]<]mini", true, [Node(ArgItem, "]<]mini", true, [])]);
            var name := Node(ArgName, "a", false, []);
            Extends(Node(Arg, "aI]<]mini", true, [name, Node(ArgArray, "I]<]mini", true, [item, tried])]),
                    Node(Arg, "aI]<]minimax[>[</a>", false, [name, Node(ArgArray, "I", false, [item])]))
  {
    var item := Node(OtherTag, "I", false, [Node(ArgItem, "I", false, [Node(ArgValue, "1", false, [])])]);
    var tried := Node(OtherTag, "]<]mini", true, [Node(ArgItem, "]<]mini", true, [])]);
    var name := Node(ArgName, "a", false, []);
    var before, after := Node(ArgArray, "I]<]mini", true, [item, tried]), Node(ArgArray, "I", false, [item]);
    assert Mute(Node(ArgItem, "]<]mini", true, [])) && Mute(tried);
    assert [item, tried][1..] == [tried] && [tried][1..] == [] && AllMute([tried]);
    assert ChildrenExtend([item, tried], [item]);
    assert [name, before][1..] == [before] && [before][1..] == [] && [name, after][1..] == [after];
    assert ChildrenExtend([before], [after]);
  }

  lemma {:induction false} MuteFinds(ps: seq<Node>, tag: Tag, depth: nat)
    requires AllMute(ps) && (tag == ArgName || IsValueTag(tag))
    ensures FindByTag(ps, tag, depth) == None
    decreases SizeAll(ps)
  {
    if ps != [] {
      if depth > 1 {
        MuteFinds(ps[0].children, tag, depth - 1);
      }
      MuteFinds(ps[1..], tag, depth);
    }
  }

  lemma {:induction false} MuteAppend(a: seq<Node>, b: seq<Node>)
    ensures AllMute(a + b) <==> AllMute(a) && AllMute(b)
    decreases |a|
  {
    if a == [] {
      assert a + b == b;
    } else {
      assert (a + b)[1..] == a[1..] + b;
      MuteAppend(a[1..], b);
    }
  }

  lemma {:induction false} MuteCollected(ps: seq<Node>, tag: Tag)
    requires AllMute(ps)
    ensures AllMute(Collect(ps, tag))
    decreases SizeAll(ps)
  {
    if ps != [] {
      var here := if ps[0].tag == tag then [ps[0]] else Collect(ps[0].children, tag);
      if ps[0].tag != tag {
        MuteCollected(ps[0].children, tag);
      }
      MuteCollected(ps[1..], tag);
      MuteAppend(here, Collect(ps[1..], tag));
    }
  }

  lemma {:induction false} MuteHasNoValue(ps: seq<Node>)
    requires AllMute(ps)
    ensures ValueOf(ps) == None
  {
    if ps != [] {
      MuteHasNoValue(ps[1..]);
    }
  }

  lemma {:induction false} MutePrintsNothing(ps: seq<Node>, isObject: bool, addComma: bool)
    requires AllMute(ps)
    ensures EntriesToJson(ps, isObject, addComma) == ""
    decreases |ps|
  {
    if ps != [] {
      MutePrintsNothingItself(ps[0], isObject);
      MutePrintsNothing(ps[1..], isObject, addComma);
    }
  }

  lemma MutePrintsNothingItself(p: Node, isObject: bool)
    requires Mute(p)
    ensures EntryToJson(p, isObject) == ""
  {
    MuteFinds(p.children, ArgName, 3);
    MuteHasNoValue(p.children);
    assert ValueToJson(None, !p.isPartial) == "";
    assert isObject ==> MemberToJson(p) == "";
  }

  /** What grows into mute nodes was mute. */
  lemma {:induction false} MuteBefore(p: Node, c: Node)
    requires Extends(p, c) && Mute(c)
    ensures Mute(p)
    decreases p, 1
  {
    if p != c {
      AllMuteBefore(p.children, c.children);
    }
  }

  lemma {:induction false} AllMuteBefore(ps: seq<Node>, cs: seq<Node>)
    requires ChildrenExtend(ps, cs) && AllMute(cs)
    ensures AllMute(ps)
    decreases ps, 0
  {
    if !AllMute(ps) {
      if AllMute(ps[1..]) {
        MuteBefore(ps[0], cs[0]);
      } else {
        AllMuteBefore(ps[1..], cs[1..]);
      }
    }
  }

  lemma {:induction false} ExtendsTransitive(a: Node, b: Node, c: Node)
    requires Extends(a, b) && Extends(b, c)
    ensures Extends(a, c)
    decreases a, 1
  {
    if NotBegun(a) {
    } else if NotBegun(b) {
      AllMuteBefore(a.children, b.children);
    } else if a != b && b != c {
      ChildrenExtendTransitive(a.children, b.children, c.children);
    }
  }

  lemma {:induction false} ChildrenExtendTransitive(a: seq<Node>, b: seq<Node>, c: seq<Node>)
    requires ChildrenExtend(a, b) && ChildrenExtend(b, c)
    ensures ChildrenExtend(a, c)
    decreases a, 0
  {
    if !AllMute(a) {
      if AllMute(b) {
        AllMuteBefore(a, b);
      } else if AllMute(a[1..]) {
        if AllMute(b[1..]) {
          ExtendsTransitive(a[0], b[0], c[0]);
        }
      } else {
        if AllMute(b[1..]) {
          AllMuteBefore(a[1..], b[1..]);
        }
        ChildrenExtendTransitive(a[1..], b[1..], c[1..]);
      }
    }
  }

  lemma {:induction false} NameStaysFound(ps: seq<Node>, cs: seq<Node>, depth: nat)
    requires ChildrenExtend(ps, cs) && FindByTag(ps, ArgName, depth).Some?
    ensures FindByTag(cs, ArgName, depth) == FindByTag(ps, ArgName, depth)
    decreases SizeAll(ps)
  {
    if AllMute(ps) {
      MuteFinds(ps, ArgName, depth);
    } else {
      var p, c := ps[0], cs[0];
      if AllMute(ps[1..]) {
        MuteFinds(ps[1..], ArgName, depth);
        if p != c && depth > 1 {
          NameStaysFound(p.children, c.children, depth - 1);
        }
      } else if p.tag != ArgName && !(depth > 1 && FindByTag(p.children, ArgName, depth - 1).Some?) {
        NameStaysFound(ps[1..], cs[1..], depth);
      }
    }
  }

  /** A growth stays one when mute nodes follow what grows, or anything what it became. */
  lemma {:induction false} ExtendsMore(a: seq<Node>, b: seq<Node>, mute: seq<Node>, more: seq<Node>)
    requires ChildrenExtend(a, b) && AllMute(mute)
    ensures ChildrenExtend(a + mute, b + more)
    decreases |a|
  {
    MuteAppend(a, mute);
    if !AllMute(a) {
      assert (a + mute)[0] == a[0] && (a + mute)[1..] == a[1..] + mute;
      assert (b + more)[0] == b[0] && (b + more)[1..] == b[1..] + more;
      MuteAppend(a[1..], mute);
      if !AllMute(a[1..]) {
        ExtendsMore(a[1..], b[1..], mute, more);
      }
    }
  }

  lemma {:induction false} ExtendsAfter(h: seq<Node>, a: seq<Node>, b: seq<Node>)
    requires ChildrenExtend(a, b)
    ensures ChildrenExtend(h + a, h + b)
    decreases |h|
  {
    if h == [] {
      assert h + a == a && h + b == b;
    } else {
      assert (h + a)[0] == h[0] == (h + b)[0];
      assert (h + a)[1..] == h[1..] + a && (h + b)[1..] == h[1..] + b;
      ExtendsAfter(h[1..], a, b);
    }
  }

  lemma {:induction false} CollectedExtend(ps: seq<Node>, cs: seq<Node>, tag: Tag)
    requires ChildrenExtend(ps, cs) && tag != ArgName && !IsValueTag(tag)
    ensures ChildrenExtend(Collect(ps, tag), Collect(cs, tag))
    decreases SizeAll(ps)
  {
    if AllMute(ps) {
      MuteCollected(ps, tag);
    } else {
      var p, c := ps[0], cs[0];
      var hp := if p.tag == tag then [p] else Collect(p.children, tag);
      var hc := if c.tag == tag then [c] else Collect(c.children, tag);
      if AllMute(ps[1..]) {
        MuteCollected(ps[1..], tag);
        if p == c {
          assert ChildrenExtend(Collect(ps[1..], tag), Collect(cs[1..], tag));
          ExtendsAfter(hp, Collect(ps[1..], tag), Collect(cs[1..], tag));
        } else {
          if p.tag == tag {
            OneExtends(p, c);
          } else {
            CollectedExtend(p.children, c.children, tag);
          }
          ExtendsMore(hp, hc, Collect(ps[1..], tag), Collect(cs[1..], tag));
        }
      } else {
        CollectedExtend(ps[1..], cs[1..], tag);
        ExtendsAfter(hp, Collect(ps[1..], tag), Collect(cs[1..], tag));
      }
    }
  }

  lemma OneExtends(p: Node, c: Node)
    requires Extends(p, c)
    ensures ChildrenExtend([p], [c])
  {
    assert [p][1..] == [];
  }

  lemma {:induction false} CollectTags(cs: seq<Node>, tag: Tag)
    ensures forall i :: 0 <= i < |Collect(cs, tag)| ==> Collect(cs, tag)[i].tag == tag
    decreases SizeAll(cs)
  {
    if cs != [] {
      if cs[0].tag != tag {
        CollectTags(cs[0].children, tag);
      }
      CollectTags(cs[1..], tag);
    }
  }

  lemma {:induction false} ValueStaysFound(ps: seq<Node>, cs: seq<Node>)
    requires ChildrenExtend(ps, cs) && ValueOf(ps).Some?
    ensures ValueOf(cs).Some? && Extends(ValueOf(ps).value, ValueOf(cs).value)
    decreases |ps|
  {
    if AllMute(ps) {
      MuteHasNoValue(ps);
    } else if AllMute(ps[1..]) {
      MuteHasNoValue(ps[1..]);
    } else if !IsValueTag(ps[0].tag) {
      ValueStaysFound(ps[1..], cs[1..]);
    }
  }

  // ----- Printed text is kept -----

  lemma {:induction false} ValueTags(cs: seq<Node>)
    ensures ValueOf(cs).Some? ==> IsValueTag(ValueOf(cs).value.tag)
  {
    if cs != [] && !IsValueTag(cs[0].tag) {
      ValueTags(cs[1..]);
    }
  }

  lemma Ends(open: string, p: string, c: string, pClose: string, cClose: string)
    requires p <= c && (pClose == "" || (p == c && pClose == cClose))
    ensures open + p + pClose <= open + c + cClose
  {
  }

  /** `p` printed as open or closed, against what it may become. A closed entry is whole. */
  lemma {:induction false} ValueKept(p: Option<Node>, c: Option<Node>, pClosed: bool, cClosed: bool)
    requires p.Some? ==> IsValueTag(p.value.tag) && c.Some? && Extends(p.value, c.value)
    requires pClosed ==> p == c && cClosed
    ensures ValueToJson(p, pClosed) <= ValueToJson(c, cClosed)
    decreases if p.Some? then Size(p.value) else 0, 1
  {
    if p.Some? {
      var x, y := p.value, c.value;
      match x.tag
      case ArgObject => ContainerKept(x, y, true, pClosed, cClosed);
      case ArgArray => ContainerKept(x, y, false, pClosed, cClosed);
      case ArgStringValue =>
        EscapeInnerIsEscape(x.text);
        EscapeInnerIsEscape(y.text);
        EscapeMonotone(x.text, y.text);
        Ends("\"", Escape(x.text), Escape(y.text), Unless(!pClosed, "\""), Unless(!cClosed, "\""));
      case _ =>
    }
  }

  lemma {:induction false} ContainerKept(p: Node, c: Node, isObject: bool, pClosed: bool, cClosed: bool)
    requires Extends(p, c) && (pClosed ==> p == c && cClosed)
    ensures ContainerToJson(p, isObject, pClosed) <= ContainerToJson(c, isObject, cClosed)
    decreases Size(p), 0
  {
    var tag, close := if isObject then Arg else ArgItem, if isObject then "}" else "]";
    var es, fs := Collect(p.children, tag), Collect(c.children, tag);
    if p != c {
      CollectedExtend(p.children, c.children, tag);
      CollectTags(p.children, tag);
      EntriesKept(es, fs, isObject, false);
    }
    Ends(if isObject then "{" else "[", EntriesToJson(es, isObject, false), EntriesToJson(fs, isObject, false),
         Unless(!pClosed, close), Unless(!cClosed, close));
  }

  lemma {:induction false} EntryKept(p: Node, c: Node, isObject: bool)
    requires Extends(p, c) && !IsValueTag(p.tag)
    ensures EntryToJson(p, isObject) <= EntryToJson(c, isObject)
    decreases Size(p), 2
  {
    if p != c {
      var v, w := ValueOf(p.children), ValueOf(c.children);
      if v.Some? {
        ValueStaysFound(p.children, c.children);
        ValueTags(p.children);
      }
      ValueKept(v, w, false, !c.isPartial);
      if isObject && FindByTag(p.children, ArgName, 3).Some? {
        NameStaysFound(p.children, c.children, 3);
        var key := Dump(FindByTag(p.children, ArgName, 3).value.text) + ":";
        PrefixCancel(key, ValueToJson(v, false), ValueToJson(w, !c.isPartial));
      }
    }
  }

  lemma {:induction false} EntriesKept(ps: seq<Node>, cs: seq<Node>, isObject: bool, addComma: bool)
    requires ChildrenExtend(ps, cs) && forall i :: 0 <= i < |ps| ==> !IsValueTag(ps[i].tag)
    ensures EntriesToJson(ps, isObject, addComma) <= EntriesToJson(cs, isObject, addComma)
    decreases SizeAll(ps), 3
  {
    if AllMute(ps) {
      MutePrintsNothing(ps, isObject, addComma);
    } else {
      var sep, text := if addComma then "," else "", EntryToJson(ps[0], isObject);
      if AllMute(ps[1..]) {
        LastEntry(ps, isObject, addComma);
        EntryKept(ps[0], cs[0], isObject);
        FirstEntryKept(ps[0], cs, isObject, addComma);
      } else {
        EntriesKept(ps[1..], cs[1..], isObject, addComma || text != "");
        PrefixCancel(sep + text, EntriesToJson(ps[1..], isObject, true), EntriesToJson(cs[1..], isObject, true));
      }
    }
  }

  lemma LastEntry(ps: seq<Node>, isObject: bool, addComma: bool)
    requires ps != [] && AllMute(ps[1..])
    ensures EntriesToJson(ps, isObject, addComma)
         == if EntryToJson(ps[0], isObject) == "" then ""
            else (if addComma then "," else "") + EntryToJson(ps[0], isObject)
  {
    MutePrintsNothing(ps[1..], isObject, addComma);
    MutePrintsNothing(ps[1..], isObject, true);
  }

  lemma FirstEntryKept(p: Node, cs: seq<Node>, isObject: bool, addComma: bool)
    requires cs != [] && EntryToJson(p, isObject) <= EntryToJson(cs[0], isObject)
    ensures EntryToJson(p, isObject) != "" ==>
              (if addComma then "," else "") + EntryToJson(p, isObject) <= EntriesToJson(cs, isObject, addComma)
  {
    if EntryToJson(p, isObject) != "" {
      PrefixCancel(if addComma then "," else "", EntryToJson(p, isObject), EntryToJson(cs[0], isObject));
    }
  }

  /** The arguments printed for a partial call are a prefix of those printed for any call
      it may grow into. The node of the call is none of the names and values. */
  lemma PrintedArgumentsAreKept(p: Node, c: Node)
    requires Extends(p, c) && !IsValueTag(p.tag)
    ensures ContainerToJson(p, true, !p.isPartial) <= ContainerToJson(c, true, !c.isPartial)
  {
    ContainerKept(p, c, true, !p.isPartial, !c.isPartial);
  }

  /** Were names to grow, printed text could be taken back. */
  lemma GrowingNamesRetract()
    ensures var p := Node(Arg, "a", true, [Node(ArgName, "a", true, [])]);
            var c := Node(Arg, "ab", true, [Node(ArgName, "ab", true, [])]);
            !(MemberToJson(p) <= MemberToJson(c))
  {
    var p := Node(Arg, "a", true, [Node(ArgName, "a", true, [])]);
    var c := Node(Arg, "ab", true, [Node(ArgName, "ab", true, [])]);
    assert FindByTag(p.children, ArgName, 3) == Some(p.children[0]);
    assert FindByTag(c.children, ArgName, 3) == Some(c.children[0]);
    assert Escape("a") == "a" + Escape("") == "a";
    EscapeAppend("a", "b");
    assert "a" + "b" == "ab" && Escape("b") == "b" + Escape("");
    assert MemberToJson(p)[2] == '"';
    assert MemberToJson(c)[2] == 'b';
  }

  lemma NamedFirst(n: Node, v: Node)
    requires |n.children| == 2 && n.children[0].tag == ArgName && n.children[1] == v && IsValueTag(v.tag)
    ensures MemberToJson(n) == (Dump(n.children[0].text) + ":") + ValueToJson(Some(v), !n.isPartial)
  {
    assert FindByTag(n.children, ArgName, 3) == Some(n.children[0]);
    assert ValueOf(n.children[1..]) == Some(v);
  }

  /** Were a value to change its kind, as between the alternatives of a schema, printed text
      could be taken back, too: an object that has just begun turns out to be a number. */
  lemma ChangedKindRetracts()
    ensures var name := Node(ArgName, "a", false, []);
            var p := Node(Arg, "a", true, [name, Node(ArgObject, "", false, [])]);
            var c := Node(Arg, "a5", true, [name, Node(ArgValue, "5", false, [])]);
            !(MemberToJson(p) <= MemberToJson(c))
  {
    var name := Node(ArgName, "a", false, []);
    var begun, number := Node(ArgObject, "", false, []), Node(ArgValue, "5", false, []);
    var p, c := Node(Arg, "a", true, [name, begun]), Node(Arg, "a5", true, [name, number]);
    NamedFirst(p, begun);
    NamedFirst(c, number);
    assert ContainerToJson(begun, true, false) == "{" + "" + "";
    var key := Dump("a") + ":";
    assert MemberToJson(p) == key + "{" && MemberToJson(c) == key + "5";
    PrefixCancel(key, "{", "5");
    assert "{"[0] != "5"[0];
  }
}
