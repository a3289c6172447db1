/**
 What happens to printed text when a value changes its kind between the alternatives of a
 schema. Such a change keeps the text exactly when what was printed for the value so far is
 how the text of its new kind starts; this carries over to whole calls.
 */
module MinimaxKinds {
  import opened Text
  import opened JsonText
  import opened MinimaxPrinter

  predicate IsContainer(tag: Tag) {
    tag == ArgObject || tag == ArgArray
  }

  function EntryTag(isObject: bool): Tag {
    if isObject then Arg else ArgItem
  }

  // ----- Growing trees whose values may change their kind -----

  /** A value holds no name where the name of its member is looked for. */
  predicate NoName(x: Node) {
    FindByTag(x.children, ArgName, 1).None? && FindByTag(x.children, ArgName, 2).None?
  }

  /** Another alternative has taken over; the verbatim one does so by taking some text. */
  predicate ChangesKind(x: Node, y: Node) {
    IsValueTag(x.tag) && IsValueTag(y.tag) && x.tag != y.tag && NoName(x) && (y.tag == ArgValue ==> y.text != "")
  }

  ghost predicate ValueBecomes(x: Node, y: Node)
    decreases x, 2
  {
    || Extends(x, y)
    || ChangesKind(x, y)
    || (IsContainer(x.tag) && x.tag == y.tag
        && ChildrenBecome(x.children, y.children, EntryTag(x.tag == ArgObject)))
  }

  /** The children of an entry: the value may change its kind. */
  ghost predicate EntryBecomes(ps: seq<Node>, cs: seq<Node>)
    decreases ps, 0
  {
    AllMute(ps) || (cs != [] &&
                    if AllMute(ps[1..]) then ValueBecomes(ps[0], cs[0])
                    else ps[0] == cs[0] && EntryBecomes(ps[1..], cs[1..]))
  }

  /** A node of a container whose entries have the tag: an entry, or what stands above entries. */
  ghost predicate NodeBecomes(p: Node, c: Node, tag: Tag)
    decreases p, 1
  {
    || Extends(p, c)
    || (MayGrow(p) && p.tag == c.tag && p.tag != ArgName && TextGrows(p, c)
        && if p.tag == tag then EntryBecomes(p.children, c.children) else ChildrenBecome(p.children, c.children, tag))
  }

  ghost predicate ChildrenBecome(ps: seq<Node>, cs: seq<Node>, tag: Tag)
    decreases ps, 0
  {
    AllMute(ps) || (cs != [] &&
                    if AllMute(ps[1..]) then NodeBecomes(ps[0], cs[0], tag)
                    else ps[0] == cs[0] && ChildrenBecome(ps[1..], cs[1..], tag))
  }

  lemma {:induction false} ExtendsBecomes(ps: seq<Node>, cs: seq<Node>, tag: Tag)
    requires ChildrenExtend(ps, cs)
    ensures ChildrenBecome(ps, cs, tag) && EntryBecomes(ps, cs)
    decreases |ps|
  {
    if !AllMute(ps) && !AllMute(ps[1..]) {
      ExtendsBecomes(ps[1..], cs[1..], tag);
    }
  }

  // ----- What stays found -----

  lemma {:induction false} NameStaysInEntry(ps: seq<Node>, cs: seq<Node>, depth: nat)
    requires EntryBecomes(ps, cs) && depth <= 3 && FindByTag(ps, ArgName, depth).Some?
    ensures FindByTag(cs, ArgName, depth) == FindByTag(ps, ArgName, depth)
    decreases SizeAll(ps)
  {
    if AllMute(ps) {
      MuteFinds(ps, ArgName, depth);
    } else {
      var p, c := ps[0], cs[0];
      if AllMute(ps[1..]) {
        MuteFinds(ps[1..], ArgName, depth);
        if Extends(p, c) {
          NameStaysInOne(p, c, depth);
        } else if IsContainer(p.tag) && p.tag == c.tag && depth > 1 {
          NameStaysAbove(p.children, c.children, EntryTag(p.tag == ArgObject), depth - 1);
        }
      } else if p.tag != ArgName && !(depth > 1 && FindByTag(p.children, ArgName, depth - 1).Some?) {
        NameStaysInEntry(ps[1..], cs[1..], depth);
      }
    }
  }

  lemma {:induction false} NameStaysAbove(ps: seq<Node>, cs: seq<Node>, tag: Tag, depth: nat)
    requires ChildrenBecome(ps, cs, tag) && depth <= 3 && FindByTag(ps, ArgName, depth).Some?
    ensures FindByTag(cs, ArgName, depth) == FindByTag(ps, ArgName, depth)
    decreases SizeAll(ps)
  {
    if AllMute(ps) {
      MuteFinds(ps, ArgName, depth);
    } else {
      var p, c := ps[0], cs[0];
      if AllMute(ps[1..]) {
        MuteFinds(ps[1..], ArgName, depth);
        if Extends(p, c) {
          NameStaysInOne(p, c, depth);
        } else if depth > 1 {
          if p.tag == tag {
            NameStaysInEntry(p.children, c.children, depth - 1);
          } else {
            NameStaysAbove(p.children, c.children, tag, depth - 1);
          }
        }
      } else if p.tag != ArgName && !(depth > 1 && FindByTag(p.children, ArgName, depth - 1).Some?) {
        NameStaysAbove(ps[1..], cs[1..], tag, depth);
      }
    }
  }

  lemma NameStaysInOne(p: Node, c: Node, depth: nat)
    requires Extends(p, c)
    requires p.tag == ArgName || (depth > 1 && FindByTag(p.children, ArgName, depth - 1).Some?)
    ensures c.tag == ArgName <==> p.tag == ArgName
    ensures p.tag == ArgName ==> p == c
    ensures p.tag != ArgName ==> FindByTag(c.children, ArgName, depth - 1) == FindByTag(p.children, ArgName, depth - 1)
  {
    if p != c {
      if NotBegun(p) {
        MuteFinds(p.children, ArgName, depth - 1);
      } else {
        NameStaysFound(p.children, c.children, depth - 1);
      }
    }
  }

  lemma {:induction false} ValueOfBecomes(ps: seq<Node>, cs: seq<Node>)
    requires EntryBecomes(ps, cs) && ValueOf(ps).Some?
    ensures ValueOf(cs).Some? && ValueBecomes(ValueOf(ps).value, ValueOf(cs).value)
    decreases |ps|
  {
    if AllMute(ps) {
      MuteHasNoValue(ps);
    } else if AllMute(ps[1..]) {
      MuteHasNoValue(ps[1..]);
    } else if !IsValueTag(ps[0].tag) {
      ValueOfBecomes(ps[1..], cs[1..]);
    }
  }

  lemma {:induction false} BecomesMore(a: seq<Node>, b: seq<Node>, mute: seq<Node>, more: seq<Node>, tag: Tag)
    requires ChildrenBecome(a, b, tag) && AllMute(mute)
    ensures ChildrenBecome(a + mute, b + more, tag)
    decreases |a|
  {
    MuteAppend(a, mute);
    if !AllMute(a) {
      assert (a + mute)[0] == a[0] && (a + mute)[1..] == a[1..] + mute;
      assert (b + more)[0] == b[0] && (b + more)[1..] == b[1..] + more;
      MuteAppend(a[1..], mute);
      if !AllMute(a[1..]) {
        BecomesMore(a[1..], b[1..], mute, more, tag);
      }
    }
  }

  lemma {:induction false} BecomesAfter(h: seq<Node>, a: seq<Node>, b: seq<Node>, tag: Tag)
    requires ChildrenBecome(a, b, tag)
    ensures ChildrenBecome(h + a, h + b, tag)
    decreases |h|
  {
    if h == [] {
      assert h + a == a && h + b == b;
    } else {
      assert (h + a)[0] == h[0] == (h + b)[0];
      assert (h + a)[1..] == h[1..] + a && (h + b)[1..] == h[1..] + b;
      BecomesAfter(h[1..], a, b, tag);
    }
  }

  /** The entries collected from a container. */
  lemma {:induction false} CollectedBecome(ps: seq<Node>, cs: seq<Node>, isObject: bool)
    requires ChildrenBecome(ps, cs, EntryTag(isObject))
    ensures var tag := EntryTag(isObject); ChildrenBecome(Collect(ps, tag), Collect(cs, tag), tag)
    decreases SizeAll(ps), 1
  {
    var tag := EntryTag(isObject);
    if AllMute(ps) {
      MuteCollected(ps, tag);
    } else {
      var p, c := ps[0], cs[0];
      var hp := if p.tag == tag then [p] else Collect(p.children, tag);
      var hc := if c.tag == tag then [c] else Collect(c.children, tag);
      if AllMute(ps[1..]) && p != c {
        MuteCollected(ps[1..], tag);
        CollectedHere(p, c, isObject);
        BecomesMore(hp, hc, Collect(ps[1..], tag), Collect(cs[1..], tag), tag);
      } else {
        if AllMute(ps[1..]) {
          MuteCollected(ps[1..], tag);
        } else {
          CollectedBecome(ps[1..], cs[1..], isObject);
        }
        BecomesAfter(hp, Collect(ps[1..], tag), Collect(cs[1..], tag), tag);
      }
    }
  }

  lemma {:induction false} CollectedHere(p: Node, c: Node, isObject: bool)
    requires NodeBecomes(p, c, EntryTag(isObject)) && p != c
    ensures var tag := EntryTag(isObject);
            ChildrenBecome(if p.tag == tag then [p] else Collect(p.children, tag),
                           if c.tag == tag then [c] else Collect(c.children, tag), tag)
    decreases SizeAll(p.children), 2
  {
    var tag := EntryTag(isObject);
    if p.tag == tag {
      assert [p][1..] == [];
    } else if NotBegun(p) {
      MuteCollected(p.children, tag);
    } else if Extends(p, c) {
      CollectedExtend(p.children, c.children, tag);
      ExtendsBecomes(Collect(p.children, tag), Collect(c.children, tag), tag);
    } else {
      CollectedBecome(p.children, c.children, isObject);
    }
  }

  // ----- Where the kind changes -----

  /** The value printed at the end of the growing text that has changed its kind, and the
      text behind it. */
  datatype Turn = Turn(was: Node, now: Node, closed: bool, behind: string)
  {
    function Onwards(rest: string): Turn {
      this.(behind := behind + rest)
    }
  }

  function Then(t: Option<Turn>, rest: string): Option<Turn> {
    match t
    case None => None
    case Some(turn) => Some(turn.Onwards(rest))
  }

  function ValueTurn(x: Node, y: Node, closed: bool): Option<Turn>
    decreases Size(x), 1
  {
    if x == y then None
    else if x.tag != y.tag then Some(Turn(x, y, closed, ""))
    else if IsContainer(x.tag) then ContainerTurn(x, y, x.tag == ArgObject, closed)
    else None
  }

  function ContainerTurn(p: Node, c: Node, isObject: bool, closed: bool): Option<Turn>
    decreases Size(p), 0
  {
    var tag := EntryTag(isObject);
    Then(EntriesTurn(Collect(p.children, tag), Collect(c.children, tag), isObject),
         Unless(!closed, if isObject then "}" else "]"))
  }

  function EntriesTurn(es: seq<Node>, fs: seq<Node>, isObject: bool): Option<Turn>
    decreases SizeAll(es), 3
  {
    if AllMute(es) || fs == [] then None
    else if AllMute(es[1..]) then Then(EntryTurn(es[0], fs[0], isObject), EntriesToJson(fs[1..], isObject, true))
    else EntriesTurn(es[1..], fs[1..], isObject)
  }

  function EntryTurn(e: Node, f: Node, isObject: bool): Option<Turn>
    decreases Size(e), 2
  {
    var v, w := ValueOf(e.children), ValueOf(f.children);
    if e == f || v.None? || w.None? || (isObject && FindByTag(e.children, ArgName, 3).None?) then None
    else ValueTurn(v.value, w.value, !f.isPartial)
  }

  /** What was printed for the value starts what is printed from there on; only verbatim text
      can start like the text of another kind. */
  predicate TextKept(t: Turn) {
    if t.was.tag == ArgValue then t.was.text <= ValueToJson(Some(t.now), t.closed) + t.behind
    else t.now.tag == ArgValue && ValueToJson(Some(t.was), false) <= t.now.text + t.behind
  }

  predicate Kept(t: Option<Turn>) {
    t.Some? ==> TextKept(t.value)
  }

  /** A change among objects, arrays and strings always takes text back. */
  lemma ChangedValueKept(x: Node, y: Node, closed: bool, behind: string)
    requires IsValueTag(x.tag) && IsValueTag(y.tag) && x.tag != y.tag
    ensures ValueToJson(Some(x), false) <= ValueToJson(Some(y), closed) + behind
       <==> TextKept(Turn(x, y, closed, behind))
  {
    if x.tag != ArgValue && y.tag != ArgValue {
      Opening(x, false);
      Opening(y, closed);
    }
  }

  function OpeningOf(tag: Tag): char {
    if tag == ArgObject then '{' else if tag == ArgArray then '[' else '"'
  }

  lemma Opening(x: Node, closed: bool)
    requires IsValueTag(x.tag) && x.tag != ArgValue
    ensures var t := ValueToJson(Some(x), closed); t != "" && t[0] == OpeningOf(x.tag)
  {
  }

  // ----- The exact condition -----

  lemma {:induction false} ValueExactly(x: Node, y: Node, closed: bool, rest: string)
    requires IsValueTag(x.tag) && IsValueTag(y.tag) && ValueBecomes(x, y)
    ensures ValueToJson(Some(x), false) <= ValueToJson(Some(y), closed) + rest
       <==> Kept(Then(ValueTurn(x, y, closed), rest))
    decreases Size(x), 1
  {
    if x.tag != y.tag {
      ChangedValueKept(x, y, closed, "" + rest);
      assert "" + rest == rest;
    } else if IsContainer(x.tag) && x != y {
      ContainerExactly(x, y, x.tag == ArgObject, closed, rest);
    } else {
      ValueKept(Some(x), Some(y), false, closed);
    }
  }

  lemma {:induction false} ContainerExactly(p: Node, c: Node, isObject: bool, closed: bool, rest: string)
    requires p != c && (Extends(p, c) || ChildrenBecome(p.children, c.children, EntryTag(isObject))) && !NotBegun(p)
    ensures ContainerToJson(p, isObject, false) <= ContainerToJson(c, isObject, closed) + rest
       <==> Kept(Then(ContainerTurn(p, c, isObject, closed), rest))
    decreases Size(p), 0
  {
    var tag, open, close := EntryTag(isObject), if isObject then "{" else "[", if isObject then "}" else "]";
    var es, fs, end := Collect(p.children, tag), Collect(c.children, tag), Unless(!closed, close);
    if Extends(p, c) {
      ExtendsBecomes(p.children, c.children, tag);
    }
    CollectedBecome(p.children, c.children, isObject);
    CollectTags(p.children, tag);
    EntriesExactly(es, fs, isObject, false, end + rest);
    Around(open, EntriesToJson(es, isObject, false), EntriesToJson(fs, isObject, false), end, rest);
    ThenThen(EntriesTurn(es, fs, isObject), end, rest);
  }

  lemma Around(open: string, p: string, c: string, end: string, rest: string)
    ensures open + p + "" <= (open + c + end) + rest <==> p <= c + (end + rest)
  {
    assert open + p + "" == open + p;
    assert (open + c + end) + rest == open + (c + (end + rest));
    PrefixCancel(open, p, c + (end + rest));
  }

  lemma ThenThen(t: Option<Turn>, a: string, b: string)
    ensures Then(Then(t, a), b) == Then(t, a + b)
  {
    if t.Some? {
      Associative(t.value.behind, a, b);
    }
  }

  /** The values of an entry before and after, and the name that stands in front of both. */
  lemma EntryParts(e: Node, f: Node, isObject: bool)
    requires e != f && NodeBecomes(e, f, EntryTag(isObject)) && e.tag == EntryTag(isObject)
    ensures e.isPartial && EntryBecomes(e.children, f.children)
    ensures isObject && FindByTag(e.children, ArgName, 3).Some? ==>
              FindByTag(f.children, ArgName, 3) == FindByTag(e.children, ArgName, 3)
  {
    if Extends(e, f) {
      ExtendsBecomes(e.children, f.children, e.tag);
    }
    if FindByTag(e.children, ArgName, 3).Some? {
      NameStaysInEntry(e.children, f.children, 3);
    }
  }

  /** What an entry prints in front of its value. */
  function KeyOf(e: Node, isObject: bool): string {
    if isObject && FindByTag(e.children, ArgName, 3).Some?
    then Dump(FindByTag(e.children, ArgName, 3).value.text) + ":"
    else ""
  }

  predicate Nameless(e: Node, isObject: bool) {
    isObject && FindByTag(e.children, ArgName, 3).None?
  }

  lemma EntryPrinted(e: Node, isObject: bool)
    ensures EntryToJson(e, isObject)
         == if Nameless(e, isObject) then "" else KeyOf(e, isObject) + ValueToJson(ValueOf(e.children), !e.isPartial)
  {
    var text := ValueToJson(ValueOf(e.children), !e.isPartial);
    assert "" + text == text;
  }

  lemma {:induction false} EntryExactly(e: Node, f: Node, isObject: bool, rest: string)
    requires NodeBecomes(e, f, EntryTag(isObject)) && e.tag == EntryTag(isObject)
    ensures EntryToJson(e, isObject) <= EntryToJson(f, isObject) + rest <==> Kept(Then(EntryTurn(e, f, isObject), rest))
    ensures EntryTurn(e, f, isObject).Some? ==> EntryToJson(f, isObject) != ""
    decreases Size(e), 2
  {
    if e != f {
      EntryParts(e, f, isObject);
      EntryPrinted(e, isObject);
      EntryPrinted(f, isObject);
      if !Nameless(e, isObject) {
        var v, w, key := ValueOf(e.children), ValueOf(f.children), KeyOf(e, isObject);
        if v.Some? {
          ValueOfBecomes(e.children, f.children);
          ValueTags(e.children);
          ValueTags(f.children);
          ValueExactly(v.value, w.value, !f.isPartial, rest);
          TurnPrints(v.value, w.value, !f.isPartial);
        }
        Behind(key, ValueToJson(v, false), ValueToJson(w, !f.isPartial), rest);
      }
    }
  }

  lemma Behind(key: string, p: string, c: string, rest: string)
    ensures key + p <= (key + c) + rest <==> p <= c + rest
  {
    Associative(key, c, rest);
    PrefixCancel(key, p, c + rest);
  }

  lemma TurnPrints(x: Node, y: Node, closed: bool)
    requires IsValueTag(x.tag) && IsValueTag(y.tag) && ValueBecomes(x, y)
    ensures ValueTurn(x, y, closed).Some? ==> ValueToJson(Some(y), closed) != ""
  {
    if y.tag != ArgValue {
      Opening(y, closed);
    }
  }

  lemma {:induction false} EntriesExactly(es: seq<Node>, fs: seq<Node>, isObject: bool, addComma: bool, rest: string)
    requires ChildrenBecome(es, fs, EntryTag(isObject))
    requires forall i :: 0 <= i < |es| ==> es[i].tag == EntryTag(isObject)
    ensures EntriesToJson(es, isObject, addComma) <= EntriesToJson(fs, isObject, addComma) + rest
       <==> Kept(Then(EntriesTurn(es, fs, isObject), rest))
    decreases SizeAll(es), 4
  {
    if AllMute(es) {
      MutePrintsNothing(es, isObject, addComma);
    } else if AllMute(es[1..]) {
      LastEntry(es, isObject, addComma);
      LastEntryExactly(es[0], fs, isObject, addComma, rest);
    } else {
      var sep, text := if addComma then "," else "", EntryToJson(es[0], isObject);
      EntriesExactly(es[1..], fs[1..], isObject, addComma || text != "", rest);
      if text != "" {
        Behind(sep + text, EntriesToJson(es[1..], isObject, true), EntriesToJson(fs[1..], isObject, true), rest);
      }
    }
  }

  function Led(text: string, addComma: bool): string {
    if text == "" then "" else (if addComma then "," else "") + text
  }

  lemma {:induction false} LastEntryExactly(e: Node, fs: seq<Node>, isObject: bool, addComma: bool, rest: string)
    requires fs != [] && NodeBecomes(e, fs[0], EntryTag(isObject)) && e.tag == EntryTag(isObject)
    ensures Led(EntryToJson(e, isObject), addComma) <= EntriesToJson(fs, isObject, addComma) + rest
       <==> Kept(Then(Then(EntryTurn(e, fs[0], isObject), EntriesToJson(fs[1..], isObject, true)), rest))
    decreases Size(e), 3
  {
    var sep, text, now := if addComma then "," else "", EntryToJson(e, isObject), EntryToJson(fs[0], isObject);
    var turn, more := EntryTurn(e, fs[0], isObject), EntriesToJson(fs[1..], isObject, true);
    ThenThen(turn, more, rest);
    if turn.None? {
      EntryExactly(e, fs[0], isObject, "");
      assert now + "" == now;
      FirstEntryKept(e, fs, isObject, addComma);
    } else {
      EntryExactly(e, fs[0], isObject, more + rest);
      if text != "" {
        Associative(sep + now, more, rest);
        Behind(sep, text, now, more + rest);
      }
    }
  }

  /** The arguments printed for a call are a prefix of those printed for what it becomes if and
      only if no printed value changes its kind, or the one that does keeps its text. */
  lemma ArgumentsKeptExactly(p: Node, c: Node)
    requires NodeBecomes(p, c, Arg) && p.tag == OtherTag
    ensures ContainerToJson(p, true, !p.isPartial) <= ContainerToJson(c, true, !c.isPartial)
       <==> p == c || Kept(ContainerTurn(p, c, true, !c.isPartial))
  {
    if p != c {
      ContainerExactly(p, c, true, !c.isPartial, "");
      var t := ContainerToJson(c, true, !c.isPartial);
      assert t + "" == t;
      NothingThen(ContainerTurn(p, c, true, !c.isPartial));
    }
  }

  lemma NothingThen(t: Option<Turn>)
    ensures Then(t, "") == t
  {
    if t.Some? {
      assert t.value.behind + "" == t.value.behind;
    }
  }
}
