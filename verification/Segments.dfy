/**
 Cutting rendered templates into markers (`<...>`, `[...]`) and the text between them.
 Segmentation is a canonical parse: it inverts concatenation on every list it can produce.
 */
module Segments {
  import opened Text

  datatype Kind = TEXT | MARKER

  datatype Segment = Segment(kind: Kind, value: string)

  predicate IsOpener(c: char) {
    c == '<' || c == '['
  }

  predicate IsCloser(op: char, c: char) {
    (op == '<' && c == '>') || (op == '[' && c == ']')
  }

  /** Position of the first opener, or the length. */
  function FindOpener(t: string): (n: nat)
    ensures n <= |t|
    ensures forall k :: 0 <= k < n ==> !IsOpener(t[k])
    ensures n < |t| ==> IsOpener(t[n])
  {
    if t == "" || IsOpener(t[0]) then 0 else 1 + FindOpener(t[1..])
  }

  /** Position of the first closer of `op`, or the length. */
  function FindCloser(op: char, t: string): (n: nat)
    ensures n <= |t|
    ensures forall k :: 0 <= k < n ==> !IsCloser(op, t[k])
    ensures n < |t| ==> IsCloser(op, t[n])
  {
    if t == "" || IsCloser(op, t[0]) then 0 else 1 + FindCloser(op, t[1..])
  }

  lemma FindOpenerUnique(t: string, n: nat)
    requires n <= |t|
    requires forall k :: 0 <= k < n ==> !IsOpener(t[k])
    requires n < |t| ==> IsOpener(t[n])
    ensures FindOpener(t) == n
  {
  }

  lemma FindCloserUnique(op: char, t: string, n: nat)
    requires n <= |t|
    requires forall k :: 0 <= k < n ==> !IsCloser(op, t[k])
    requires n < |t| ==> IsCloser(op, t[n])
    ensures FindCloser(op, t) == n
  {
  }

  /** The segment at the front of a non-empty text. */
  function First(t: string): (s: Segment)
    requires t != ""
    ensures s.value != "" && s.value <= t
  {
    if IsOpener(t[0]) then
      var n := FindCloser(t[0], t);
      if n < |t| then Segment(MARKER, t[..n + 1]) else Segment(TEXT, t)
    else
      Segment(TEXT, t[..FindOpener(t)])
  }

  function Segs(t: string): seq<Segment>
    decreases |t|
  {
    if t == "" then [] else [First(t)] + Segs(t[|First(t).value|..])
  }

  predicate NoOpener(text: string, from: nat, to: nat)
    requires from <= to <= |text|
  {
    forall k :: from <= k < to ==> !IsOpener(text[k])
  }

  predicate NoCloser(op: char, text: string, from: nat, to: nat)
    requires from <= to <= |text|
  {
    forall k :: from <= k < to ==> !IsCloser(op, text[k])
  }

  /** What the scan knows: `segs` are cut off up to `border`, and what it has read since
      holds no opener, or nothing that closes the opener it starts with. */
  ghost predicate ScanState(text: string, border: nat, cur: nat, inMarker: bool, opener: char, segs: seq<Segment>)
    requires border <= cur <= |text|
  {
    && CutUpTo(text, border, segs)
    && if inMarker then
         border < cur && IsOpener(text[border]) && opener == text[border] && NoCloser(opener, text, border, cur)
       else
         NoOpener(text, border, cur)
  }

  lemma ReadOn(text: string, border: nat, cur: nat, inMarker: bool, opener: char, segs: seq<Segment>)
    requires border <= cur < |text| && ScanState(text, border, cur, inMarker, opener, segs)
    requires if inMarker then !IsCloser(opener, text[cur]) else !IsOpener(text[cur])
    ensures ScanState(text, border, cur + 1, inMarker, opener, segs)
  {
  }

  lemma CutText(text: string, border: nat, cur: nat, opener: char, segs: seq<Segment>)
    requires border < cur < |text| && IsOpener(text[cur]) && ScanState(text, border, cur, false, opener, segs)
    ensures ScanState(text, cur, cur, false, opener, segs + [Segment(TEXT, text[border..cur])])
  {
    TakeCut(text, border, cur, Segment(TEXT, text[border..cur]), segs);
  }

  lemma OpenMarker(text: string, border: nat, cur: nat, opener: char, segs: seq<Segment>)
    requires border <= cur < |text| && IsOpener(text[cur]) && ScanState(text, border, cur, false, opener, segs)
    ensures ScanState(text, cur, cur + 1, true, text[cur],
                      if border < cur then segs + [Segment(TEXT, text[border..cur])] else segs)
  {
    if border < cur {
      CutText(text, border, cur, opener, segs);
    }
  }

  lemma CutMarker(text: string, border: nat, cur: nat, opener: char, segs: seq<Segment>)
    requires border <= cur < |text| && IsCloser(opener, text[cur]) && ScanState(text, border, cur, true, opener, segs)
    ensures ScanState(text, cur + 1, cur + 1, false, '\0', segs + [Segment(MARKER, text[border..cur + 1])])
  {
    TakeCut(text, border, cur + 1, Segment(MARKER, text[border..cur + 1]), segs);
  }

  lemma CutRest(text: string, border: nat, inMarker: bool, opener: char, segs: seq<Segment>)
    requires border < |text| && ScanState(text, border, |text|, inMarker, opener, segs)
    ensures CutUpTo(text, |text|, segs + [Segment(TEXT, text[border..])])
  {
    assert text[border..|text|] == text[border..];
    TakeCut(text, border, |text|, Segment(TEXT, text[border..]), segs);
  }

  /** When all is read, what stands behind the last border is one more segment. */
  lemma EndOfScan(text: string, border: nat, inMarker: bool, opener: char, segs: seq<Segment>)
    requires border <= |text| && ScanState(text, border, |text|, inMarker, opener, segs)
    ensures Segs(text) == if border < |text| then segs + [Segment(TEXT, text[border..])] else segs
  {
    if border < |text| {
      CutRest(text, border, inMarker, opener, segs);
      AllCut(text, segs + [Segment(TEXT, text[border..])]);
    } else {
      AllCut(text, segs);
    }
  }

  method SegmentizeMarkers(text: string) returns (retval: seq<Segment>)
    ensures retval == Segs(text)
  {
    retval := [];
    var inMarker, opener := false, '\0';
    var lastBorder, cur := 0, 0;
    while cur < |text|
      invariant 0 <= lastBorder <= cur <= |text|
      invariant ScanState(text, lastBorder, cur, inMarker, opener, retval)
    {
      if !inMarker && IsOpener(text[cur]) {
        OpenMarker(text, lastBorder, cur, opener, retval);
        if lastBorder < cur {
          retval := retval + [Segment(TEXT, text[lastBorder..cur])];
        }
        lastBorder := cur;
        inMarker := true;
        opener := text[cur];
      } else if inMarker && IsCloser(opener, text[cur]) {
        CutMarker(text, lastBorder, cur, opener, retval);
        retval := retval + [Segment(MARKER, text[lastBorder..cur + 1])];
        lastBorder := cur + 1;
        inMarker := false;
        opener := '\0';
      } else {
        ReadOn(text, lastBorder, cur, inMarker, opener, retval);
      }
      cur := cur + 1;
    }
    EndOfScan(text, lastBorder, inMarker, opener, retval);
    if lastBorder < |text| {
      retval := retval + [Segment(TEXT, text[lastBorder..])];
    }
  }

  /** `segs` are successive cuts of `text` from its start up to `border`. */
  ghost predicate CutUpTo(text: string, border: nat, segs: seq<Segment>)
    requires border <= |text|
    decreases |segs|
  {
    if segs == [] then border == 0
    else
      var s := segs[|segs| - 1];
      && 0 < |s.value| <= border
      && CanCut(text, border - |s.value|, border, s)
      && CutUpTo(text, border - |s.value|, segs[..|segs| - 1])
  }

  lemma CutStep(text: string, from: nat, to: nat, s: Segment)
    requires from < to <= |text| && CanCut(text, from, to, s)
    ensures Segs(text[from..]) == [s] + Segs(text[to..])
  {
    CutIsFirst(text, from, to, s);
    StepAt(text, from, to, s);
  }

  lemma StepAt(text: string, from: nat, to: nat, s: Segment)
    requires from < to <= |text| && First(text[from..]) == s && |s.value| == to - from
    ensures Segs(text[from..]) == [s] + Segs(text[to..])
  {
    TailOfTail(text, from, to);
    SegsStepTo(text[from..], s, text[to..]);
  }

  lemma SegsStepTo(t: string, s: Segment, rest: string)
    requires t != "" && First(t) == s && t[|s.value|..] == rest
    ensures Segs(t) == [s] + Segs(rest)
  {
  }

  lemma FirstCut(t: string, s: Segment, rest: string)
    requires s.value != "" && t == s.value + rest && First(t) == s
    ensures Segs(t) == [s] + Segs(rest)
  {
    SegsStepTo(t, s, rest);
  }

  /** A marker reaches from `<` to the next `>`, whatever stands between. */
  lemma AngleMarker(name: string, rest: string)
    requires forall c <- name :: c != '>'
    ensures Segs("<" + name + ">" + rest) == [Segment(MARKER, "<" + name + ">")] + Segs(rest)
  {
    var t := "<" + name + ">" + rest;
    forall k | 0 <= k < 1 + |name| ensures !IsCloser('<', t[k]) {
      assert k > 0 ==> t[k] == name[k - 1] && name[k - 1] in name;
    }
    FindCloserUnique('<', t, 1 + |name|);
    assert t[..2 + |name|] == "<" + name + ">";
    FirstCut(t, Segment(MARKER, "<" + name + ">"), rest);
  }

  /** A marker reaches from `[` to the next `]`, whatever stands between. */
  lemma SquareMarker(name: string, rest: string)
    requires forall c <- name :: c != ']'
    ensures Segs("[" + name + "]" + rest) == [Segment(MARKER, "[" + name + "]")] + Segs(rest)
  {
    var t := "[" + name + "]" + rest;
    forall k | 0 <= k < 1 + |name| ensures !IsCloser('[', t[k]) {
      assert k > 0 ==> t[k] == name[k - 1] && name[k - 1] in name;
    }
    FindCloserUnique('[', t, 1 + |name|);
    assert t[..2 + |name|] == "[" + name + "]";
    FirstCut(t, Segment(MARKER, "[" + name + "]"), rest);
  }

  /** Text reaches up to the next `<` or `[`. */
  lemma TextThen(text: string, rest: string)
    requires text != "" && forall c <- text :: c != '<' && c != '['
    requires rest == "" || rest[0] == '<' || rest[0] == '['
    ensures Segs(text + rest) == [Segment(TEXT, text)] + Segs(rest)
  {
    var t := text + rest;
    forall k | 0 <= k < |text| ensures !IsOpener(t[k]) {
      assert t[k] == text[k] && text[k] in text;
    }
    FindOpenerUnique(t, |text|);
    assert t[..|text|] == text;
    FirstCut(t, Segment(TEXT, text), rest);
  }

  /** What is opened and never closed is text to the end. */
  lemma UnclosedRest(rest: string)
    ensures (forall c <- rest :: c != '>') ==> Segs("<" + rest) == [Segment(TEXT, "<" + rest)]
    ensures (forall c <- rest :: c != ']') ==> Segs("[" + rest) == [Segment(TEXT, "[" + rest)]
  {
    UnclosedText('<', '>', rest);
    UnclosedText('[', ']', rest);
  }

  lemma UnclosedText(open: char, close: char, rest: string)
    requires IsOpener(open) && forall c :: IsCloser(open, c) ==> c == close
    ensures (forall c <- rest :: c != close) ==> Segs([open] + rest) == [Segment(TEXT, [open] + rest)]
  {
    var t := [open] + rest;
    if forall c <- rest :: c != close {
      forall k | 0 <= k < |t| ensures !IsCloser(open, t[k]) {
        assert k > 0 ==> t[k] == rest[k - 1] && rest[k - 1] in rest;
      }
      FindCloserUnique(open, t, |t|);
      assert t + "" == t;
      FirstCut(t, Segment(TEXT, t), "");
    }
  }

  lemma TailOfTail(text: string, from: nat, to: nat)
    requires from <= to <= |text|
    ensures text[from..][to - from..] == text[to..]
  {
  }

  lemma {:induction false} CutsAreFirst(text: string, border: nat, segs: seq<Segment>)
    requires border <= |text| && CutUpTo(text, border, segs)
    ensures segs + Segs(text[border..]) == Segs(text)
    decreases |segs|
  {
    if segs == [] {
      assert text[0..] == text;
      assert [] + Segs(text) == Segs(text);
    } else {
      var before, s := segs[..|segs| - 1], segs[|segs| - 1];
      var from := border - |s.value|;
      CutsAreFirst(text, from, before);
      CutStep(text, from, border, s);
      Regroup(segs, Segs(text[border..]));
    }
  }

  lemma Regroup<T>(segs: seq<T>, rest: seq<T>)
    requires segs != []
    ensures segs[..|segs| - 1] + ([segs[|segs| - 1]] + rest) == segs + rest
  {
  }

  lemma AllCut(text: string, segs: seq<Segment>)
    requires CutUpTo(text, |text|, segs)
    ensures segs == Segs(text)
  {
    CutsAreFirst(text, |text|, segs);
    assert text[|text|..] == "";
    assert segs + [] == segs;
  }

  lemma SegsStep(t: string, s: Segment)
    requires t != "" && First(t) == s
    ensures Segs(t) == [s] + Segs(t[|s.value|..])
  {
  }

  /** The scan may cut `text` from one border to the next. */
  predicate CanCut(text: string, from: nat, to: nat, s: Segment)
    requires from < to <= |text|
  {
    && s.value == text[from..to]
    && if s.kind == MARKER then
         IsOpener(text[from]) && IsCloser(text[from], text[to - 1]) && NoCloser(text[from], text, from, to - 1)
       else if IsOpener(text[from]) then
         to == |text| && NoCloser(text[from], text, from, to)
       else
         NoOpener(text, from, to) && (to < |text| ==> IsOpener(text[to]))
  }

  lemma CutIsFirst(text: string, from: nat, to: nat, s: Segment)
    requires from < to <= |text| && CanCut(text, from, to, s)
    ensures First(text[from..]) == s && |s.value| == to - from
  {
    var t, n := text[from..], to - from;
    assert t[..n] == s.value;
    if IsOpener(t[0]) {
      FindCloserUnique(t[0], t, if s.kind == MARKER then n - 1 else n);
    } else {
      FindOpenerUnique(t, n);
    }
  }

  lemma TakeCut(text: string, from: nat, to: nat, s: Segment, before: seq<Segment>)
    requires from < to <= |text| && CanCut(text, from, to, s) && CutUpTo(text, from, before)
    ensures CutUpTo(text, to, before + [s])
  {
    var after := before + [s];
    assert after[..|after| - 1] == before && after[|after| - 1] == s;
  }

  // ----- A canonical parse -----

  /** The text that a list of segments spells. */
  function Spell(segs: seq<Segment>): string {
    if segs == [] then "" else segs[0].value + Spell(segs[1..])
  }

  /** A marker ends at the first closer of its own opener. */
  predicate IsMarkerText(v: string) {
    v != "" && IsOpener(v[0]) && FindCloser(v[0], v) == |v| - 1
  }

  predicate IsUnclosed(v: string) {
    v != "" && IsOpener(v[0]) && FindCloser(v[0], v) == |v|
  }

  predicate IsPlain(v: string) {
    v != "" && FindOpener(v) == |v|
  }

  /** The lists that segmentation produces: plain text never meets plain text, and an
      opener that is never closed makes the rest one final text. */
  predicate Canonical(segs: seq<Segment>) {
    segs == [] ||
    var v, rest := segs[0].value, segs[1..];
    if segs[0].kind == MARKER then IsMarkerText(v) && Canonical(rest)
    else if v != "" && IsOpener(v[0]) then IsUnclosed(v) && rest == []
    else IsPlain(v) && Canonical(rest) && (rest != [] ==> IsOpener(rest[0].value[0]))
  }

  lemma {:induction false} SpellSegs(t: string)
    ensures Spell(Segs(t)) == t
    decreases |t|
  {
    if t != "" {
      var s := First(t);
      SegsStep(t, s);
      SpellSegs(t[|s.value|..]);
      SpellCons(s, Segs(t[|s.value|..]));
      PrefixAndRest(s.value, t);
    }
  }

  lemma SpellCons(s: Segment, rest: seq<Segment>)
    ensures Spell([s] + rest) == s.value + Spell(rest)
  {
    assert ([s] + rest)[1..] == rest;
  }

  lemma PrefixAndRest(v: string, t: string)
    requires v <= t
    ensures v + t[|v|..] == t
  {
  }

  lemma {:induction false} SegsCanonical(t: string)
    ensures Canonical(Segs(t))
    decreases |t|
  {
    if t != "" {
      var v := First(t).value;
      var rest := t[|v|..];
      SegsCanonical(rest);
      assert ([First(t)] + Segs(rest))[1..] == Segs(rest);
      if IsOpener(t[0]) {
        var n := FindCloser(t[0], t);
        FindCloserUnique(t[0], v, if n < |t| then n else |t|);
      } else {
        FindOpenerUnique(v, |v|);
        if rest != "" {
          assert First(rest).value[0] == rest[0];
        }
      }
    }
  }

  lemma FirstOfCanonical(segs: seq<Segment>)
    requires segs != [] && Canonical(segs)
    ensures segs[0].value != "" && First(segs[0].value + Spell(segs[1..])) == segs[0]
  {
    var v, rest := segs[0].value, segs[1..];
    var t := v + Spell(rest);
    forall k | 0 <= k < |v| ensures t[k] == v[k] {}
    if IsOpener(v[0]) {
      FindCloserUnique(v[0], t, FindCloser(v[0], v));
      assert t[..|v|] == v;
    } else {
      if rest != [] {
        assert t[|v|] == rest[0].value[0];
      }
      FindOpenerUnique(t, |v|);
      assert t[..|v|] == v;
    }
  }

  /** Segmenting what a canonical list spells gives the list back. */
  lemma {:induction false} SegsInvertsSpell(segs: seq<Segment>)
    requires Canonical(segs)
    ensures Segs(Spell(segs)) == segs
    decreases |segs|
  {
    if segs != [] {
      var v, rest := segs[0].value, segs[1..];
      var t := v + Spell(rest);
      FirstOfCanonical(segs);
      SegsStep(t, segs[0]);
      assert t[|v|..] == Spell(rest);
      SegsInvertsSpell(rest);
    }
  }

  lemma {:induction false} CanonicalNonEmpty(segs: seq<Segment>)
    requires Canonical(segs)
    ensures forall i :: 0 <= i < |segs| ==> segs[i].value != ""
    decreases |segs|
  {
    if segs != [] && Canonical(segs[1..]) {
      CanonicalNonEmpty(segs[1..]);
      forall i | 0 <= i < |segs| ensures segs[i].value != "" {
        assert i > 0 ==> segs[i] == segs[1..][i - 1];
      }
    }
  }

  // ----- Spelling parts -----

  lemma FirstThen(a: seq<Segment>, b: seq<Segment>)
    requires a != []
    ensures (a + b)[0] == a[0] && (a + b)[1..] == a[1..] + b
  {
  }

  lemma {:induction false} SpellAppend(a: seq<Segment>, b: seq<Segment>)
    ensures Spell(a + b) == Spell(a) + Spell(b)
    decreases |a|
  {
    if a == [] {
      assert a + b == b;
    } else {
      FirstThen(a, b);
      SpellAppend(a[1..], b);
      Associative(a[0].value, Spell(a[1..]), Spell(b));
    }
  }

  lemma SpellOne(s: Segment)
    ensures Spell([s]) == s.value
  {
    assert Spell([s][1..]) == "";
  }

  lemma SpellNonEmpty(segs: seq<Segment>)
    requires forall i :: 0 <= i < |segs| ==> segs[i].value != ""
    ensures Spell(segs) == "" <==> segs == []
  {
  }
}
