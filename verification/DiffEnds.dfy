/**
 A diff split leaves nothing in common at the ends of its two parts: characters where both
 parts have text there, whole segments elsewhere.
 */
module DiffEnds {
  import opened Text
  import opened Segments
  import opened DiffSplit
  import opened DiffTheorems

  /** The segment that holds the character at `i`. */
  function SegAt(segs: seq<Segment>, i: nat): Segment
    requires i < |Spell(segs)|
  {
    if i < |segs[0].value| then segs[0] else SegAt(segs[1..], i - |segs[0].value|)
  }

  lemma {:induction false} SegAtBorder(segs: seq<Segment>, j: nat, k: nat)
    requires j < |segs| && k < |segs[j].value|
    ensures |Spell(segs[..j])| + k < |Spell(segs)| && SegAt(segs, |Spell(segs[..j])| + k) == segs[j]
    decreases |segs|
  {
    if j > 0 {
      SegAtBorder(segs[1..], j - 1, k);
      assert segs[..j][1..] == segs[1..][..j - 1];
    }
  }

  // ----- What the scan has put aside -----

  /** The ends put aside are the segments in front of `from` and from `to` on. */
  ghost predicate Aside(segs: seq<Segment>, from: nat, to: nat, prefix: string, suffix: string)
    requires from <= to <= |segs|
  {
    prefix == Spell(segs[..from]) && suffix == Spell(segs[to..])
  }

  ghost predicate BothAside(l: seq<Segment>, r: seq<Segment>, c: Cut)
    requires c.Within(l, r)
  {
    Aside(l, c.l0, c.l1 + 1, c.prefix, c.suffix) && Aside(r, c.r0, c.r1 + 1, c.prefix, c.suffix)
  }

  lemma TakeFront(segs: seq<Segment>, from: nat, to: nat, prefix: string, suffix: string)
    requires from < to <= |segs| && Aside(segs, from, to, prefix, suffix)
    ensures Aside(segs, from + 1, to, prefix + segs[from].value, suffix)
  {
    assert segs[..from] == segs[0..from] && segs[..from + 1] == segs[0..from + 1];
    SpellLast(segs, 0, from + 1);
  }

  lemma TakeBack(segs: seq<Segment>, from: nat, to: nat, prefix: string, suffix: string)
    requires from < to <= |segs| && Aside(segs, from, to, prefix, suffix)
    ensures Aside(segs, from, to - 1, prefix, segs[to - 1].value + suffix)
  {
    assert segs[to - 1..] == [segs[to - 1]] + segs[to..];
    SpellCons(segs[to - 1], segs[to..]);
  }

  lemma FrontStepAside(l: seq<Segment>, r: seq<Segment>, c: Cut)
    requires c.Within(l, r) && c.l0 < c.l1 && c.r0 < c.r1 && BothAside(l, r, c)
    ensures BothAside(l, r, PrefixStep(l, r, c))
  {
    if l[c.l0] == r[c.r0] {
      TakeFront(l, c.l0, c.l1 + 1, c.prefix, c.suffix);
      TakeFront(r, c.r0, c.r1 + 1, c.prefix, c.suffix);
      FrontTaken(l, r, c, PrefixStep(l, r, c));
    }
  }

  lemma FrontTaken(l: seq<Segment>, r: seq<Segment>, c: Cut, c': Cut)
    requires c.Within(l, r) && c.l0 < c.l1 && c.r0 < c.r1 && l[c.l0] == r[c.r0] && c' == PrefixStep(l, r, c)
    requires Aside(l, c.l0 + 1, c.l1 + 1, c.prefix + l[c.l0].value, c.suffix)
    requires Aside(r, c.r0 + 1, c.r1 + 1, c.prefix + l[c.l0].value, c.suffix)
    ensures BothAside(l, r, c')
  {
    assert c'.l0 == c.l0 + 1 && c'.l1 == c.l1 && c'.r0 == c.r0 + 1 && c'.r1 == c.r1;
    assert c'.prefix == c.prefix + l[c.l0].value && c'.suffix == c.suffix;
  }

  lemma BackStepAside(l: seq<Segment>, r: seq<Segment>, c: Cut)
    requires c.Within(l, r) && !c.leftUsed && !c.rightUsed && BothAside(l, r, c)
    ensures var c' := SuffixStep(l, r, c); c'.leftUsed || c'.rightUsed || BothAside(l, r, c')
  {
    if l[c.l1] == r[c.r1] && c.l0 != c.l1 && c.r0 != c.r1 {
      TakeBack(l, c.l0, c.l1 + 1, c.prefix, c.suffix);
      TakeBack(r, c.r0, c.r1 + 1, c.prefix, c.suffix);
    }
  }

  lemma {:induction false} ScanAside(l: seq<Segment>, r: seq<Segment>, c: Cut)
    requires c.Within(l, r) && !c.leftUsed && !c.rightUsed && BothAside(l, r, c)
    ensures var c' := Scan(l, r, c); c'.leftUsed || c'.rightUsed || BothAside(l, r, c')
    decreases c.l1 - c.l0
  {
    if c.l0 != c.l1 && c.r0 != c.r1 && Advance(l, r, c) != c {
      var c' := Advance(l, r, c);
      FrontStepAside(l, r, c);
      BackStepAside(l, r, PrefixStep(l, r, c));
      if c'.leftUsed || c'.rightUsed {
        UsedEnds(l, r, PrefixStep(l, r, c));
      } else {
        ScanAside(l, r, c');
      }
    }
  }

  /** A side is used up only where it has nothing in play: the scan is over. */
  lemma UsedEnds(l: seq<Segment>, r: seq<Segment>, c: Cut)
    requires c.Within(l, r) && !c.leftUsed && !c.rightUsed
    ensures var c' := SuffixStep(l, r, c); c'.leftUsed || c'.rightUsed ==> Scan(l, r, c') == c' && Sound(c')
  {
  }

  // ----- Both parts left -----

  lemma UsedIsEmpty(l: seq<Segment>, r: seq<Segment>, c: Cut)
    requires c.Within(l, r) && Sound(c)
    ensures c.leftUsed ==> Finish(l, r, c).left == ""
    ensures c.rightUsed ==> Finish(l, r, c).right == ""
  {
    assert c.leftUsed ==> l[c.l0..c.LeftEnd()] == [];
    assert c.rightUsed ==> r[c.r0..c.RightEnd()] == [];
  }

  lemma {:induction false} ScanSound(l: seq<Segment>, r: seq<Segment>, c: Cut)
    requires c.Within(l, r) && !c.leftUsed && !c.rightUsed
    ensures Sound(Scan(l, r, c))
    decreases c.l1 - c.l0
  {
    if c.l0 != c.l1 && c.r0 != c.r1 && Advance(l, r, c) != c {
      UsedEnds(l, r, PrefixStep(l, r, c));
      if !Advance(l, r, c).leftUsed && !Advance(l, r, c).rightUsed {
        ScanSound(l, r, Advance(l, r, c));
      }
    }
  }

  lemma FixUpUses(l: seq<Segment>, r: seq<Segment>, c: Cut)
    requires c.Within(l, r) && Sound(c)
    ensures var c' := FixUp(l, r, c); Sound(c') && (c' == c || c'.leftUsed || c'.rightUsed)
    ensures c.leftUsed || c.rightUsed ==> var c' := FixUp(l, r, c); c'.leftUsed || c'.rightUsed
  {
  }

  /** Where the scan ends: nothing used up, and the segments at the ends differ, unless a
      single equal text is left. */
  ghost predicate Stopped(l: seq<Segment>, r: seq<Segment>, c: Cut)
    requires c.Within(l, r)
  {
    && !c.leftUsed && !c.rightUsed && BothAside(l, r, c)
    && (|| (l[c.l0] != r[c.r0] && l[c.l1] != r[c.r1])
        || (c.l0 == c.l1 && c.r0 == c.r1 && l[c.l0] == r[c.r0] && l[c.l0].kind == TEXT))
  }

  /** With something left on both sides, no side is used up and no fix-up applied. */
  lemma BothLeft(l: seq<Segment>, r: seq<Segment>) returns (c: Cut)
    requires l != [] && r != []
    requires var d := Finish(l, r, FixUp(l, r, Scan(l, r, Start(l, r)))); d.left != "" && d.right != ""
    ensures c == Scan(l, r, Start(l, r)) == FixUp(l, r, Scan(l, r, Start(l, r)))
    ensures c.Within(l, r) && Stopped(l, r, c)
  {
    c := Scan(l, r, Start(l, r));
    ScanSound(l, r, Start(l, r));
    FixUpUses(l, r, c);
    UsedIsEmpty(l, r, FixUp(l, r, c));
    assert l[..0] == [] && r[..0] == [] && l[|l|..] == [] && r[|r|..] == [];
    ScanAside(l, r, Start(l, r));
    StopsAtDifference(l, r);
  }

  lemma PartsEnds(a: string, b: string, p: nat, s: nat, prefix: string, suffix: string)
    requires p + s < |a| && p + s < |b|
    ensures var d := Parts(a, b, p, s, prefix, suffix);
            && d.left != "" && d.left[0] == a[p] && d.left[|d.left| - 1] == a[|a| - 1 - s]
            && d.right != "" && d.right[0] == b[p] && d.right[|d.right| - 1] == b[|b| - 1 - s]
            && |d.prefix| == |prefix| + p
            && |d.left| == |a| - s - p && |d.right| == |b| - s - p
  {
  }

  lemma CutsDiffer(a: string, b: string, p: nat, s: nat, front: bool, back: bool)
    requires s == (if back then CommonSuffix(a, b) else 0)
    requires p == (if front then CommonPrefix(a[..|a| - s], b[..|b| - s]) else 0)
    ensures p + s <= |a| && p + s <= |b|
    ensures p + s < |a| && p + s < |b| ==>
              (front ==> a[p] != b[p]) && (back ==> a[|a| - 1 - s] != b[|b| - 1 - s])
  {
    BacksApart(a, b, s, back);
    FrontsApart(a[..|a| - s], b[..|b| - s], p, front);
  }

  lemma BacksApart(a: string, b: string, s: nat, back: bool)
    requires s == (if back then CommonSuffix(a, b) else 0)
    ensures s <= |a| && s <= |b| && (back && s < |a| && s < |b| ==> a[|a| - 1 - s] != b[|b| - 1 - s])
  {
    SuffixAgrees(a, b);
  }

  lemma FrontsApart(a: string, b: string, p: nat, front: bool)
    requires p == (if front then CommonPrefix(a, b) else 0)
    ensures p <= |a| && p <= |b| && (front && p < |a| && p < |b| ==> a[p] != b[p])
  {
    PrefixAgrees(a, b);
  }

  /** What `FinishTexts` leaves of both sides differs at the ends it was allowed to cut and
      reaches to those it was not. */
  lemma TextEnds(a: string, b: string, front: bool, back: bool, prefix: string, suffix: string)
    ensures var d := FinishTexts(a, b, front, back, prefix, suffix);
            d.left != "" && d.right != "" ==>
              && (if front then d.left[0] != d.right[0] else |d.prefix| == |prefix|)
              && (if back then d.left[|d.left| - 1] != d.right[|d.right| - 1]
                  else |d.prefix| + |d.left| == |prefix| + |a| && |d.prefix| + |d.right| == |prefix| + |b|)
  {
    var s := if back then CommonSuffix(a, b) else 0;
    var p := if front then CommonPrefix(a[..|a| - s], b[..|b| - s]) else 0;
    CutsDiffer(a, b, p, s, front, back);
    if p + s < |a| && p + s < |b| {
      PartsEnds(a, b, p, s, prefix, suffix);
    }
  }

  lemma FrontSegment(segs: seq<Segment>, from: nat, prefix: string)
    requires from < |segs| && Filled(segs) && prefix == Spell(segs[..from])
    ensures |prefix| < |Spell(segs)| && SegAt(segs, |prefix|) == segs[from]
  {
    SegAtBorder(segs, from, 0);
  }

  lemma BackSegment(segs: seq<Segment>, from: nat, last: nat, prefix: string, end: nat)
    requires from <= last < |segs| && Filled(segs) && prefix == Spell(segs[..from])
    requires end == |prefix| + |Spell(segs[from..last + 1])|
    ensures 0 < end <= |Spell(segs)| && SegAt(segs, end - 1) == segs[last]
  {
    SpellLast(segs, from, last + 1);
    assert segs[..last] == segs[..from] + segs[from..last];
    SpellAppend(segs[..from], segs[from..last]);
    SegAtBorder(segs, last, |segs[last].value| - 1);
  }

  /** The parts differ in their first characters, or in their first segments, one of them a
      marker. */
  ghost predicate FrontsDiffer(l: seq<Segment>, r: seq<Segment>, d: Diff) {
    d.left != "" && d.right != "" && |d.prefix| < |Spell(l)| && |d.prefix| < |Spell(r)| &&
    var x, y := SegAt(l, |d.prefix|), SegAt(r, |d.prefix|);
    d.left[0] != d.right[0] || ((x.kind == MARKER || y.kind == MARKER) && x != y)
  }

  ghost predicate BacksDiffer(l: seq<Segment>, r: seq<Segment>, d: Diff) {
    d.left != "" && d.right != "" && |d.prefix| + |d.left| <= |Spell(l)| && |d.prefix| + |d.right| <= |Spell(r)| &&
    var x, y := SegAt(l, |d.prefix| + |d.left| - 1), SegAt(r, |d.prefix| + |d.right| - 1);
    d.left[|d.left| - 1] != d.right[|d.right| - 1] || ((x.kind == MARKER || y.kind == MARKER) && x != y)
  }

  lemma FrontOf(l: seq<Segment>, r: seq<Segment>, l0: nat, r0: nat, prefix: string, d: Diff)
    requires l0 < |l| && r0 < |r| && Filled(l) && Filled(r) && prefix == Spell(l[..l0]) == Spell(r[..r0])
    requires d.left != "" && d.right != "" && |d.prefix| < |Spell(l)| && |d.prefix| < |Spell(r)|
    requires if l[l0].kind == TEXT && r[r0].kind == TEXT then d.left[0] != d.right[0]
             else l[l0] != r[r0] && |d.prefix| == |prefix|
    ensures FrontsDiffer(l, r, d)
  {
    FrontSegment(l, l0, prefix);
    FrontSegment(r, r0, prefix);
  }

  lemma BackOf(l: seq<Segment>, r: seq<Segment>, x: Segment, y: Segment, d: Diff)
    requires d.left != "" && d.right != ""
    requires |d.prefix| + |d.left| <= |Spell(l)| && |d.prefix| + |d.right| <= |Spell(r)|
    requires if x.kind == TEXT && y.kind == TEXT then d.left[|d.left| - 1] != d.right[|d.right| - 1]
             else x != y && SegAt(l, |d.prefix| + |d.left| - 1) == x && SegAt(r, |d.prefix| + |d.right| - 1) == y
    ensures BacksDiffer(l, r, d)
  {
  }

  predicate TextFront(l: seq<Segment>, r: seq<Segment>, c: Cut)
    requires c.Within(l, r)
  {
    l[c.l0].kind == TEXT && r[c.r0].kind == TEXT
  }

  predicate TextBack(l: seq<Segment>, r: seq<Segment>, c: Cut)
    requires c.Within(l, r)
  {
    l[c.l1].kind == TEXT && r[c.r1].kind == TEXT
  }

  /** What `Finish` leaves differs at the ends that are text, and reaches to those that are
      not. */
  ghost predicate EndsCut(l: seq<Segment>, r: seq<Segment>, c: Cut, d: Diff)
    requires c.Within(l, r)
  {
    && d.left != "" && d.right != ""
    && (if TextFront(l, r, c) then d.left[0] != d.right[0] else |d.prefix| == |c.prefix|)
    && (if TextBack(l, r, c) then d.left[|d.left| - 1] != d.right[|d.right| - 1]
        else
          && |d.prefix| + |d.left| == |c.prefix| + |Spell(l[c.l0..c.l1 + 1])|
          && |d.prefix| + |d.right| == |c.prefix| + |Spell(r[c.r0..c.r1 + 1])|)
  }

  lemma FinishEnds(l: seq<Segment>, r: seq<Segment>, c: Cut)
    requires c.Within(l, r) && !c.leftUsed && !c.rightUsed
    ensures var d := Finish(l, r, c); d.left != "" && d.right != "" ==> EndsCut(l, r, c, d)
  {
    var a, b := Spell(l[c.l0..c.l1 + 1]), Spell(r[c.r0..c.r1 + 1]);
    FinishOf(l, r, c, a, b, TextFront(l, r, c), TextBack(l, r, c));
    TextEnds(a, b, TextFront(l, r, c), TextBack(l, r, c), c.prefix, c.suffix);
  }

  lemma RemainderFronts(l: seq<Segment>, r: seq<Segment>, c: Cut, d: Diff)
    requires c.Within(l, r) && Stopped(l, r, c) && Filled(l) && Filled(r)
    requires EndsCut(l, r, c, d) && Reconstructs(d, Spell(l), Spell(r))
    ensures FrontsDiffer(l, r, d)
  {
    Inside(d, Spell(l), Spell(r));
    FrontOf(l, r, c.l0, c.r0, c.prefix, d);
  }

  lemma RemainderBacks(l: seq<Segment>, r: seq<Segment>, c: Cut, d: Diff)
    requires c.Within(l, r) && Stopped(l, r, c) && Filled(l) && Filled(r)
    requires EndsCut(l, r, c, d) && Reconstructs(d, Spell(l), Spell(r))
    ensures BacksDiffer(l, r, d)
  {
    Inside(d, Spell(l), Spell(r));
    if !TextBack(l, r, c) {
      LastAre(l, r, c, |d.prefix| + |d.left|, |d.prefix| + |d.right|);
      BackOf(l, r, l[c.l1], r[c.r1], d);
    }
  }

  lemma LastAre(l: seq<Segment>, r: seq<Segment>, c: Cut, i: nat, j: nat)
    requires c.Within(l, r) && BothAside(l, r, c) && Filled(l) && Filled(r)
    requires i == |c.prefix| + |Spell(l[c.l0..c.l1 + 1])| && j == |c.prefix| + |Spell(r[c.r0..c.r1 + 1])|
    ensures 0 < i <= |Spell(l)| && SegAt(l, i - 1) == l[c.l1]
    ensures 0 < j <= |Spell(r)| && SegAt(r, j - 1) == r[c.r1]
  {
    BackSegment(l, c.l0, c.l1, c.prefix, i);
    BackSegment(r, c.r0, c.r1, c.prefix, j);
  }

  lemma RemaindersDiffer(l: seq<Segment>, r: seq<Segment>, c: Cut, d: Diff)
    requires c.Within(l, r) && Stopped(l, r, c) && Filled(l) && Filled(r)
    requires d == Finish(l, r, c) && d.left != "" && d.right != "" && Reconstructs(d, Spell(l), Spell(r))
    ensures FrontsDiffer(l, r, d) && BacksDiffer(l, r, d)
  {
    FinishEnds(l, r, c);
    RemainderFronts(l, r, c, d);
    RemainderBacks(l, r, c, d);
  }

  lemma Inside(d: Diff, left: string, right: string)
    requires Reconstructs(d, left, right)
    ensures |d.prefix| + |d.left| <= |left| && |d.prefix| + |d.right| <= |right|
  {
  }

  /** When both parts have something, the split makes up both inputs again, and it could cut
      nothing more off either end: the parts differ there in a character, or in a segment
      where one of the inputs has a marker. */
  lemma NothingInCommon(left: string, right: string)
    ensures var d, l, r := SplitDiff(left, right), Segs(left), Segs(right);
            d.left != "" && d.right != "" ==>
              Reconstructs(d, left, right) && FrontsDiffer(l, r, d) && BacksDiffer(l, r, d)
  {
    var d, l, r := SplitDiff(left, right), Segs(left), Segs(right);
    if d.left != "" && d.right != "" {
      SpellSegs(left);
      SpellSegs(right);
      SegsFilled(left);
      SegsFilled(right);
      SplitIs(left, right);
      ListsDiffer(l, r);
    }
  }

  lemma ListsDiffer(l: seq<Segment>, r: seq<Segment>)
    requires l != [] && r != [] && Filled(l) && Filled(r)
    requires var d := Represent(Spell(l), Spell(r), Finish(l, r, FixUp(l, r, Scan(l, r, Start(l, r)))));
             d.left != "" && d.right != ""
    ensures var d := Represent(Spell(l), Spell(r), Finish(l, r, FixUp(l, r, Scan(l, r, Start(l, r)))));
            Reconstructs(d, Spell(l), Spell(r)) && FrontsDiffer(l, r, d) && BacksDiffer(l, r, d)
  {
    var e := Finish(l, r, FixUp(l, r, Scan(l, r, Start(l, r))));
    BothPartsStay(Spell(l), Spell(r), e);
    var c := BothLeft(l, r);
    StartFits(l, r);
    ScanFits(l, r, Start(l, r));
    FinishFits(l, r, c);
    RemaindersDiffer(l, r, c, e);
  }

  lemma BothPartsStay(left: string, right: string, d: Diff)
    requires Represent(left, right, d).left != ""
    ensures Represent(left, right, d) == d
  {
  }

  /** When nothing of the left input is left over and it is a prefix of the right one, it is
      all prefix, and the right part is the rest of the right input or nothing. */
  lemma SharedLeftIsPrefix(left: string, right: string)
    ensures var d := SplitDiff(left, right);
            d.left == "" && left <= right ==>
              d.prefix == left && d.suffix == "" && (d.right == "" || d.right == right[|left|..])
  {
    if Segs(left) != [] && Segs(right) != [] {
      SplitIs(left, right);
    }
  }

  // ----- Texts without markers -----

  lemma PlainSegs(t: string)
    requires t != "" && forall c <- t :: c != '<' && c != '['
    ensures Segs(t) == [Segment(TEXT, t)]
  {
    forall k | 0 <= k < |t| ensures !IsOpener(t[k]) {
      assert t[k] in t;
    }
    FindOpenerUnique(t, |t|);
    assert t[..|t|] == t;
    SegsStep(t, Segment(TEXT, t));
  }

  lemma PlainOutcome(left: string, right: string)
    requires left != "" && right != ""
    requires (forall c <- left :: c != '<' && c != '[') && (forall c <- right :: c != '<' && c != '[')
    ensures SplitDiff(left, right) == Represent(left, right, FinishTexts(left, right, true, true, "", ""))
  {
    PlainSegs(left);
    PlainSegs(right);
    var l, r := [Segment(TEXT, left)], [Segment(TEXT, right)];
    SplitIs(left, right);
    SpellOne(l[0]);
    SpellOne(r[0]);
    assert l[0..1] == l && r[0..1] == r;
    var c := Start(l, r);
    assert FixUp(l, r, Scan(l, r, c)) == c;
    FinishOf(l, r, c, left, right, true, true);
  }

  /** The suffix cannot be longer, nor the prefix in front of it. */
  ghost predicate Maximal(d: Diff) {
    && (d.left == "" || d.right == "" || d.left[0] != d.right[0])
    && var u, v := d.prefix + d.left, d.prefix + d.right;
       u == "" || v == "" || u[|u| - 1] != v[|v| - 1]
  }

  lemma TextCuts(a: string, b: string) returns (p: nat, s: nat)
    ensures p + s <= |a| && p + s <= |b| && FinishTexts(a, b, true, true, "", "") == Parts(a, b, p, s, "", "")
    ensures a[..p] == b[..p]
    ensures p + s < |a| && p + s < |b| ==> a[p] != b[p]
    ensures s < |a| && s < |b| ==> a[|a| - 1 - s] != b[|b| - 1 - s]
  {
    s := CommonSuffix(a, b);
    p := CommonPrefix(a[..|a| - s], b[..|b| - s]);
    BacksApart(a, b, s, true);
    CutsDiffer(a, b, p, s, true, true);
    CommonEnds(a, b, s, p);
  }

  lemma TextsReconstruct(a: string, b: string)
    ensures Reconstructs(FinishTexts(a, b, true, true, "", ""), a, b)
  {
    FinishTextsFit(a, b, true, true, "", "");
    NothingAround(FinishTexts(a, b, true, true, "", ""), a, b);
  }

  lemma NothingAround(d: Diff, a: string, b: string)
    requires Reconstructs(d, "" + a + "", "" + b + "")
    ensures Reconstructs(d, a, b)
  {
    assert "" + a + "" == a && "" + b + "" == b;
  }

  lemma TextsMaximal(a: string, b: string)
    ensures Maximal(FinishTexts(a, b, true, true, "", ""))
  {
    var p, s := TextCuts(a, b);
    PartsMaximal(a, b, p, s);
  }

  lemma PartsMaximal(a: string, b: string, p: nat, s: nat)
    requires p + s <= |a| && p + s <= |b| && a[..p] == b[..p]
    requires p + s < |a| && p + s < |b| ==> a[p] != b[p]
    requires s < |a| && s < |b| ==> a[|a| - 1 - s] != b[|b| - 1 - s]
    ensures Maximal(Parts(a, b, p, s, "", ""))
  {
    FrontsOfTexts(a, b, p, s);
  }

  lemma FrontsOfTexts(a: string, b: string, p: nat, s: nat)
    requires p + s <= |a| && p + s <= |b| && a[..p] == b[..p]
    ensures var d := Parts(a, b, p, s, "", "");
            && d.prefix + d.left == a[..|a| - s] && d.prefix + d.right == b[..|b| - s]
            && d.left == a[p..|a| - s] && d.right == b[p..|b| - s]
  {
    assert a[..p] + a[p..|a| - s] == a[..|a| - s];
    assert b[..p] + b[p..|b| - s] == b[..|b| - s];
    assert "" + a[..p] == a[..p];
  }

  lemma PrefixRepresented(left: string, right: string, d: Diff)
    requires left <= right && d.left == "" && Reconstructs(d, left, right)
    ensures Represent(left, right, d) == Diff(left, "", "", right[|left|..])
  {
  }

  lemma OthersRepresented(left: string, right: string, d: Diff)
    requires !(left <= right) && Reconstructs(d, left, right)
    ensures Represent(left, right, d) == d
  {
  }

  lemma PlainEmpty(left: string, right: string)
    requires left == "" || right == ""
    ensures SplitDiff(left, right) == if left == "" then Diff("", "", "", right) else Diff("", "", left, "")
  {
  }

  /** Two texts without markers: a left text that begins the right one is all prefix;
      otherwise the suffix is the longest common one, and the prefix the longest common one
      of what stands in front of it. */
  lemma PlainSplit(left: string, right: string)
    requires (forall c <- left :: c != '<' && c != '[') && (forall c <- right :: c != '<' && c != '[')
    ensures left <= right ==> SplitDiff(left, right) == Diff(left, "", "", right[|left|..])
    ensures !(left <= right) ==> Reconstructs(SplitDiff(left, right), left, right) && Maximal(SplitDiff(left, right))
  {
    if left == "" || right == "" {
      PlainEmpty(left, right);
    } else {
      var d := FinishTexts(left, right, true, true, "", "");
      PlainOutcome(left, right);
      TextsReconstruct(left, right);
      TextsMaximal(left, right);
      if left <= right {
        PrefixIsShared(left, right);
        PrefixRepresented(left, right, d);
      } else {
        OthersRepresented(left, right, d);
      }
    }
  }

  lemma PrefixIsShared(a: string, b: string)
    requires a <= b
    ensures FinishTexts(a, b, true, true, "", "").left == ""
  {
    var s := CommonSuffix(a, b);
    PrefixAgrees(a[..|a| - s], b[..|b| - s]);
  }

  /** Three segments against the one at their ends: the fix-up takes the last. */
  lemma LastIsTaken(a: Segment, b: Segment)
    requires a.kind == MARKER && a.value != "" && b.value != ""
    ensures var l, r := [a, b, a], [a];
            Finish(l, r, FixUp(l, r, Scan(l, r, Start(l, r)))) == Diff("", a.value, a.value + b.value, "")
  {
    var l, r := [a, b, a], [a];
    var c := Cut(0, 1, 0, 0, false, true, "", a.value);
    assert a.value + "" == a.value;
    assert FixUp(l, r, Scan(l, r, Start(l, r))) == c;
    assert l[0..2] == [a] + [b] && r[0..0] == [];
    SpellCons(a, [b]);
    SpellOne(b);
    FinishOf(l, r, c, a.value + b.value, "", false, false);
    NothingCut(a.value + b.value, "", a.value);
  }

  lemma NothingCut(a: string, b: string, suffix: string)
    ensures FinishTexts(a, b, false, false, "", suffix) == Diff("", suffix, a, b)
  {
    assert a[|a|..] == "" && a[..0] == "" && a[0..|a|] == a && b[0..|b|] == b;
    assert "" + suffix == suffix;
  }

  lemma MarkerAlone(name: string, m: string)
    requires m == "<" + name + ">" && forall c <- name :: c != '>'
    ensures Segs(m) == [Segment(MARKER, m)]
  {
    AngleMarker(name, "");
    assert m + "" == m && Segs("") == [];
  }

  lemma MarkerTextMarker(name: string, text: string, m: string)
    requires m == "<" + name + ">" && forall c <- name :: c != '>'
    requires text != "" && forall c <- text :: c != '<' && c != '['
    ensures Segs(m) == [Segment(MARKER, m)]
    ensures Segs(m + (text + m)) == [Segment(MARKER, m), Segment(TEXT, text), Segment(MARKER, m)]
  {
    MarkerAlone(name, m);
    TextThen(text, m);
    AngleMarker(name, text + m);
    var a, b := Segment(MARKER, m), Segment(TEXT, text);
    assert [a] + ([b] + [a]) == [a, b, a];
  }

  lemma OutcomeOf(left: string, right: string, l: seq<Segment>, r: seq<Segment>, d: Diff)
    requires l == Segs(left) != [] && r == Segs(right) != []
    requires d == Finish(l, r, FixUp(l, r, Scan(l, r, Start(l, r)))) && d.left != ""
    ensures SplitDiff(left, right) == d
  {
    SplitIs(left, right);
  }

  /** A marker that stands at both ends of the left input counts as suffix when it is all of
      the right one. */
  lemma MarkerAtBothEnds(name: string, text: string)
    requires forall c <- name :: c != '>'
    requires text != "" && forall c <- text :: c != '<' && c != '['
    ensures var m := "<" + name + ">"; SplitDiff(m + (text + m), m) == Diff("", m, m + text, "")
  {
    var m := "<" + name + ">";
    var a, b := Segment(MARKER, m), Segment(TEXT, text);
    MarkerTextMarker(name, text, m);
    LastIsTaken(a, b);
    OutcomeOf(m + (text + m), m, [a, b, a], [a], Diff("", m, m + text, ""));
  }
}
