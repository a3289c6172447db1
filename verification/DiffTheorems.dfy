/**
 When the parts of a diff split make up its inputs again: an exact condition on the two
 segment lists, for all inputs.
 */
module DiffTheorems {
  import opened Text
  import opened Segments
  import opened DiffSplit

  ghost predicate Reconstructs(d: Diff, left: string, right: string) {
    d.prefix + d.left + d.suffix == left && d.prefix + d.right + d.suffix == right
  }

  // ----- The scan loses nothing -----

  /** The ends collected so far and what is in play make up a side. */
  ghost predicate Fits(segs: seq<Segment>, from: nat, to: nat, prefix: string, suffix: string)
    requires from <= to <= |segs|
  {
    prefix + Spell(segs[from..to]) + suffix == Spell(segs)
  }

  ghost predicate BothFit(l: seq<Segment>, r: seq<Segment>, c: Cut)
    requires c.Within(l, r)
  {
    Fits(l, c.l0, c.LeftEnd(), c.prefix, c.suffix) && Fits(r, c.r0, c.RightEnd(), c.prefix, c.suffix)
  }

  lemma DropFirst(segs: seq<Segment>, from: nat, to: nat, prefix: string, suffix: string)
    requires from < to <= |segs| && Fits(segs, from, to, prefix, suffix)
    ensures Fits(segs, from + 1, to, prefix + segs[from].value, suffix)
  {
    var v, rest := segs[from].value, Spell(segs[from + 1..to]);
    assert segs[from..to][1..] == segs[from + 1..to];
    assert prefix + (v + rest) + suffix == (prefix + v) + rest + suffix;
  }

  lemma DropLast(segs: seq<Segment>, from: nat, to: nat, prefix: string, suffix: string)
    requires from < to <= |segs| && Fits(segs, from, to, prefix, suffix)
    ensures Fits(segs, from, to - 1, prefix, segs[to - 1].value + suffix)
  {
    SpellLast(segs, from, to);
    EndMoves(prefix, Spell(segs[from..to - 1]), segs[to - 1].value, suffix);
  }

  lemma SpellLast(segs: seq<Segment>, from: nat, to: nat)
    requires from < to <= |segs|
    ensures Spell(segs[from..to]) == Spell(segs[from..to - 1]) + segs[to - 1].value
  {
    assert segs[from..to] == segs[from..to - 1] + [segs[to - 1]];
    SpellAppend(segs[from..to - 1], [segs[to - 1]]);
    SpellOne(segs[to - 1]);
  }

  lemma EndMoves(prefix: string, rest: string, v: string, suffix: string)
    ensures prefix + (rest + v) + suffix == prefix + rest + (v + suffix)
  {
  }

  lemma SpellNothing(segs: seq<Segment>, i: nat)
    requires i <= |segs|
    ensures Spell(segs[i..i]) == ""
  {
    assert segs[i..i] == [];
  }

  lemma EmptyMiddle(prefix: string, suffix: string)
    ensures prefix + "" + suffix == prefix + suffix
  {
  }

  lemma NothingInPlay(segs: seq<Segment>, i: nat, j: nat, prefix: string, suffix: string)
    requires i <= |segs| && j <= |segs| && Fits(segs, i, i, prefix, suffix)
    ensures Fits(segs, j, j, prefix, suffix) && prefix + suffix == Spell(segs)
  {
    SpellNothing(segs, i);
    SpellNothing(segs, j);
    EmptyMiddle(prefix, suffix);
  }

  /** A side is only used up when nothing of it is in play. */
  predicate Sound(c: Cut) {
    (c.leftUsed ==> c.l0 == c.l1) && (c.rightUsed ==> c.r0 == c.r1)
  }

  lemma MoveFirst(l: seq<Segment>, r: seq<Segment>, c: Cut)
    requires c.Within(l, r) && BothFit(l, r, c) && !c.leftUsed && !c.rightUsed && l[c.l0] == r[c.r0]
    ensures Fits(l, c.l0 + 1, c.l1 + 1, c.prefix + l[c.l0].value, c.suffix)
    ensures Fits(r, c.r0 + 1, c.r1 + 1, c.prefix + l[c.l0].value, c.suffix)
  {
    DropFirst(l, c.l0, c.l1 + 1, c.prefix, c.suffix);
    DropFirst(r, c.r0, c.r1 + 1, c.prefix, c.suffix);
  }

  lemma MoveLast(l: seq<Segment>, r: seq<Segment>, c: Cut)
    requires c.Within(l, r) && BothFit(l, r, c) && !c.leftUsed && !c.rightUsed && l[c.l1] == r[c.r1]
    ensures Fits(l, c.l0, c.l1, c.prefix, l[c.l1].value + c.suffix)
    ensures Fits(r, c.r0, c.r1, c.prefix, l[c.l1].value + c.suffix)
  {
    DropLast(l, c.l0, c.l1 + 1, c.prefix, c.suffix);
    DropLast(r, c.r0, c.r1 + 1, c.prefix, c.suffix);
  }

  lemma PrefixStepFits(l: seq<Segment>, r: seq<Segment>, c: Cut)
    requires c.Within(l, r) && c.l0 < c.l1 && c.r0 < c.r1 && !c.leftUsed && !c.rightUsed && BothFit(l, r, c)
    ensures BothFit(l, r, PrefixStep(l, r, c))
  {
    if l[c.l0] == r[c.r0] {
      MoveFirst(l, r, c);
    }
  }

  lemma SuffixStepFits(l: seq<Segment>, r: seq<Segment>, c: Cut)
    requires c.Within(l, r) && BothFit(l, r, c) && !c.leftUsed && !c.rightUsed
    ensures BothFit(l, r, SuffixStep(l, r, c)) && Sound(SuffixStep(l, r, c))
  {
    if l[c.l1] == r[c.r1] {
      MoveLast(l, r, c);
      SuffixTaken(l, r, c);
    }
  }

  lemma SuffixTaken(l: seq<Segment>, r: seq<Segment>, c: Cut)
    requires c.Within(l, r) && !c.leftUsed && !c.rightUsed && l[c.l1] == r[c.r1]
    ensures var c' := SuffixStep(l, r, c);
            && c'.l0 == c.l0 && c'.LeftEnd() == c.l1 && c'.r0 == c.r0 && c'.RightEnd() == c.r1
            && c'.prefix == c.prefix && c'.suffix == l[c.l1].value + c.suffix
  {
  }

  lemma AdvanceFits(l: seq<Segment>, r: seq<Segment>, c: Cut)
    requires c.Within(l, r) && c.l0 < c.l1 && c.r0 < c.r1 && !c.leftUsed && !c.rightUsed
    requires BothFit(l, r, c)
    ensures BothFit(l, r, Advance(l, r, c)) && Sound(Advance(l, r, c))
  {
    PrefixStepFits(l, r, c);
    SuffixStepFits(l, r, PrefixStep(l, r, c));
  }

  lemma {:induction false} ScanFits(l: seq<Segment>, r: seq<Segment>, c: Cut)
    requires c.Within(l, r) && Sound(c) && BothFit(l, r, c)
    ensures BothFit(l, r, Scan(l, r, c)) && Sound(Scan(l, r, c))
    decreases c.l1 - c.l0
  {
    if c.l0 != c.l1 && c.r0 != c.r1 {
      AdvanceFits(l, r, c);
      if Advance(l, r, c) != c {
        ScanFits(l, r, Advance(l, r, c));
      }
    }
  }

  lemma StartFits(l: seq<Segment>, r: seq<Segment>)
    requires l != [] && r != []
    ensures BothFit(l, r, Start(l, r))
  {
    assert l[0..|l|] == l && r[0..|r|] == r;
    assert "" + Spell(l) + "" == Spell(l) && "" + Spell(r) + "" == Spell(r);
  }

  // ----- From fitting cuts to reconstruction -----

  lemma PartsFit(a: string, b: string, p: nat, s: nat, prefix: string, suffix: string)
    requires p + s <= |a| && p + s <= |b| && a[..p] == b[..p] && a[|a| - s..] == b[|b| - s..]
    ensures Reconstructs(Parts(a, b, p, s, prefix, suffix), prefix + a + suffix, prefix + b + suffix)
  {
    ThreeParts(a, p, s, prefix, suffix);
    ThreeParts(b, p, s, prefix, suffix);
  }

  lemma ThreeParts(a: string, p: nat, s: nat, prefix: string, suffix: string)
    requires p + s <= |a|
    ensures (prefix + a[..p]) + a[p..|a| - s] + (a[|a| - s..] + suffix) == prefix + a + suffix
  {
    assert a == a[..p] + a[p..|a| - s] + a[|a| - s..];
  }

  lemma CommonEnds(a: string, b: string, s: nat, p: nat)
    requires s == 0 || s == CommonSuffix(a, b)
    requires p == 0 || p == CommonPrefix(a[..|a| - s], b[..|b| - s])
    ensures p + s <= |a| && p + s <= |b| && a[..p] == b[..p] && a[|a| - s..] == b[|b| - s..]
  {
    BackAgrees(a, b, s);
    FrontAgrees(a[..|a| - s], b[..|b| - s], p);
    FrontOfFront(a, |a| - s, p);
    FrontOfFront(b, |b| - s, p);
  }

  lemma BackAgrees(a: string, b: string, s: nat)
    requires s == 0 || s == CommonSuffix(a, b)
    ensures s <= |a| && s <= |b| && a[|a| - s..] == b[|b| - s..]
  {
    SuffixAgrees(a, b);
    assert a[|a|..] == b[|b|..] == "";
  }

  lemma FrontAgrees(a: string, b: string, p: nat)
    requires p == 0 || p == CommonPrefix(a, b)
    ensures p <= |a| && p <= |b| && a[..p] == b[..p]
  {
    PrefixAgrees(a, b);
  }

  lemma FrontOfFront(a: string, n: nat, p: nat)
    requires p <= n <= |a|
    ensures a[..n][..p] == a[..p]
  {
  }

  lemma RemaindersFit(a: string, b: string, s: nat, p: nat, prefix: string, suffix: string)
    requires s == 0 || s == CommonSuffix(a, b)
    requires p == 0 || p == CommonPrefix(a[..|a| - s], b[..|b| - s])
    ensures p + s <= |a| && p + s <= |b|
    ensures Reconstructs(Parts(a, b, p, s, prefix, suffix), prefix + a + suffix, prefix + b + suffix)
  {
    CommonEnds(a, b, s, p);
    PartsFit(a, b, p, s, prefix, suffix);
  }

  lemma FinishTextsFit(a: string, b: string, front: bool, back: bool, prefix: string, suffix: string)
    ensures Reconstructs(FinishTexts(a, b, front, back, prefix, suffix), prefix + a + suffix, prefix + b + suffix)
  {
    var s := if back then CommonSuffix(a, b) else 0;
    var p := if front then CommonPrefix(a[..|a| - s], b[..|b| - s]) else 0;
    RemaindersFit(a, b, s, p, prefix, suffix);
  }

  lemma FinishFits(l: seq<Segment>, r: seq<Segment>, c: Cut)
    requires c.Within(l, r) && BothFit(l, r, c)
    ensures Reconstructs(Finish(l, r, c), Spell(l), Spell(r))
  {
    FinishTextsFit(Spell(l[c.l0..c.LeftEnd()]), Spell(r[c.r0..c.RightEnd()]),
                   l[c.l0].kind == TEXT && r[c.r0].kind == TEXT, l[c.l1].kind == TEXT && r[c.r1].kind == TEXT,
                   c.prefix, c.suffix);
  }

  lemma RepresentKeeps(left: string, right: string, d: Diff)
    requires Reconstructs(d, left, right)
    ensures Reconstructs(Represent(left, right, d), left, right)
  {
    var d1 := if d.left == "" && d.right == "" then d.(prefix := left, suffix := "") else d;
    assert Reconstructs(d1, left, right);
    if left <= right {
      assert left + right[|left|..] + "" == right;
      assert left + "" + "" == left;
    }
  }

  // ----- The fix-ups -----

  /** A last left segment moved to an end, with its like at an end of the right side. */
  lemma LastLeftMoves(l: seq<Segment>, r: seq<Segment>, c: Cut)
    requires c.Within(l, r) && BothFit(l, r, c) && !c.leftUsed && !c.rightUsed && c.l0 == c.l1
    ensures l[c.l0] == r[c.r1] && c.r0 < c.r1 ==>
              BothFit(l, r, c.(suffix := r[c.r1].value + c.suffix, r1 := c.r1 - 1, leftUsed := true))
    ensures l[c.l0] == r[c.r0] && c.r0 < c.r1 ==>
              BothFit(l, r, c.(prefix := c.prefix + r[c.r0].value, r0 := c.r0 + 1, leftUsed := true))
    ensures l[c.l0] == r[c.r0] && c.r0 == c.r1 ==>
              BothFit(l, r, c.(prefix := c.prefix + r[c.r0].value, leftUsed := true, rightUsed := true))
  {
    if l[c.l0] == r[c.r1] {
      MoveLast(l, r, c);
    }
    if l[c.l0] == r[c.r0] {
      MoveFirst(l, r, c);
      NothingInPlay(l, c.l0 + 1, c.l0, c.prefix + r[c.r0].value, c.suffix);
      if c.r0 == c.r1 {
        NothingInPlay(r, c.r0 + 1, c.r0, c.prefix + r[c.r0].value, c.suffix);
      }
    }
  }

  /** A last right segment moved to an end, with its like at an end of the left side. */
  lemma LastRightMoves(l: seq<Segment>, r: seq<Segment>, c: Cut)
    requires c.Within(l, r) && BothFit(l, r, c) && !c.leftUsed && !c.rightUsed && c.r0 == c.r1 && c.l0 < c.l1
    ensures l[c.l1] == r[c.r0] ==>
              BothFit(l, r, c.(suffix := l[c.l1].value + c.suffix, l1 := c.l1 - 1, rightUsed := true))
    ensures l[c.l0] == r[c.r0] ==>
              BothFit(l, r, c.(prefix := c.prefix + l[c.l0].value, l0 := c.l0 + 1, rightUsed := true))
  {
    if l[c.l1] == r[c.r0] {
      MoveLast(l, r, c);
    }
    if l[c.l0] == r[c.r0] {
      MoveFirst(l, r, c);
      NothingInPlay(r, c.r0 + 1, c.r0, c.prefix + l[c.l0].value, c.suffix);
    }
  }

  /** Without a side used up before, a fix-up moves one segment of both sides. */
  lemma FixUpFits(l: seq<Segment>, r: seq<Segment>, c: Cut)
    requires c.Within(l, r) && BothFit(l, r, c) && !c.leftUsed && !c.rightUsed
    ensures BothFit(l, r, FixUp(l, r, c))
  {
    if c.l0 == c.l1 {
      LastLeftMoves(l, r, c);
    } else if c.r0 == c.r1 {
      LastRightMoves(l, r, c);
    }
  }

  /** The fix-up finds a segment to move although one side is used up: that side's last
      segment is counted twice. */
  predicate Stuttered(l: seq<Segment>, r: seq<Segment>, c: Cut)
    requires c.Within(l, r)
  {
    c.leftUsed != c.rightUsed && FixUp(l, r, c) != c
  }

  ghost predicate Filled(segs: seq<Segment>) {
    forall i :: 0 <= i < |segs| ==> segs[i].value != ""
  }

  lemma LeftStutter(l: seq<Segment>, r: seq<Segment>, c: Cut)
    requires c.Within(l, r) && Sound(c) && BothFit(l, r, c) && Filled(l) && Filled(r)
    requires Stuttered(l, r, c) && c.leftUsed && c.r0 < c.r1
    ensures var d := Represent(Spell(l), Spell(r), Finish(l, r, FixUp(l, r, c)));
            Reconstructs(d, Spell(l), Spell(r)) <==> Spell(l) <= Spell(r)
  {
    var c' := FixUp(l, r, c);
    NothingInPlay(l, c.l0, c.l0, c.prefix, c.suffix);
    assert l[c'.l0..c'.LeftEnd()] == [];
    SpellNonEmpty(r[c'.r0..c'.RightEnd()]);
    var d := Finish(l, r, c');
    assert d.left == "" && d.right != "" && d.prefix == c'.prefix + "" && d.suffix == "" + c'.suffix;
    assert |d.prefix + d.left + d.suffix| > |Spell(l)|;
    if Spell(l) <= Spell(r) {
      PrefixRepresentation(Spell(l), Spell(r));
    }
  }

  lemma PrefixRepresentation(left: string, right: string)
    requires left <= right
    ensures Reconstructs(Diff(left, "", "", right[|left|..]), left, right)
  {
  }

  lemma RightStutter(l: seq<Segment>, r: seq<Segment>, c: Cut)
    requires c.Within(l, r) && Sound(c) && BothFit(l, r, c) && Filled(l) && Filled(r)
    requires Stuttered(l, r, c) && c.rightUsed && c.l0 < c.l1
    ensures var d := Represent(Spell(l), Spell(r), Finish(l, r, FixUp(l, r, c)));
            !Reconstructs(d, Spell(l), Spell(r))
  {
    var c' := FixUp(l, r, c);
    NothingInPlay(r, c.r0, c.r0, c.prefix, c.suffix);
    assert r[c'.r0..c'.RightEnd()] == [];
    SpellNonEmpty(l[c'.l0..c'.LeftEnd()]);
    var d := Finish(l, r, c');
    assert d.right == "" && d.left != "";
    assert |d.prefix + d.right + d.suffix| > |Spell(r)|;
  }

  lemma LastStutter(l: seq<Segment>, r: seq<Segment>, c: Cut)
    requires c.Within(l, r) && Sound(c) && BothFit(l, r, c) && Filled(l) && Filled(r)
    requires Stuttered(l, r, c) && c.l0 == c.l1 && c.r0 == c.r1
    ensures var d := Represent(Spell(l), Spell(r), Finish(l, r, FixUp(l, r, c)));
            !Reconstructs(d, Spell(l), Spell(r))
  {
    var c' := FixUp(l, r, c);
    assert l[c'.l0..c'.LeftEnd()] == [] && r[c'.r0..c'.RightEnd()] == [];
    var d := Finish(l, r, c');
    assert d.left == "" && d.right == "";
    DifferentLengths(l, r, c);
  }

  lemma DifferentLengths(l: seq<Segment>, r: seq<Segment>, c: Cut)
    requires c.Within(l, r) && BothFit(l, r, c) && Filled(l) && Filled(r)
    requires c.leftUsed != c.rightUsed && c.l0 == c.l1 && c.r0 == c.r1
    ensures Spell(l) != Spell(r)
  {
    SpellNonEmpty(l[c.l0..c.LeftEnd()]);
    SpellNonEmpty(r[c.r0..c.RightEnd()]);
    assert |Spell(l)| == |c.prefix| + |Spell(l[c.l0..c.LeftEnd()])| + |c.suffix|;
    assert |Spell(r)| == |c.prefix| + |Spell(r[c.r0..c.RightEnd()])| + |c.suffix|;
  }

  /** Both sides used up in one step: they are equal, and the split says so. */
  lemma BothUsed(l: seq<Segment>, r: seq<Segment>, c: Cut)
    requires c.Within(l, r) && Sound(c) && BothFit(l, r, c) && c.leftUsed && c.rightUsed
    ensures Represent(Spell(l), Spell(r), Finish(l, r, FixUp(l, r, c))) == Diff(Spell(l), "", "", "")
    ensures Spell(l) == Spell(r)
  {
    var c' := FixUp(l, r, c);
    NothingInPlay(l, c.l0, c.l0, c.prefix, c.suffix);
    NothingInPlay(r, c.r0, c.r0, c.prefix, c.suffix);
    assert l[c'.l0..c'.LeftEnd()] == [] && r[c'.r0..c'.RightEnd()] == [];
  }

  /** The outcome in terms of the scan. */
  lemma OutcomeOfScan(l: seq<Segment>, r: seq<Segment>, c: Cut)
    requires c.Within(l, r) && Sound(c) && BothFit(l, r, c) && Filled(l) && Filled(r)
    ensures var d := Represent(Spell(l), Spell(r), Finish(l, r, FixUp(l, r, c)));
            Reconstructs(d, Spell(l), Spell(r))
            <==> (Stuttered(l, r, c) ==> c.leftUsed && c.r0 < c.r1 && Spell(l) <= Spell(r))
  {
    if Stuttered(l, r, c) {
      if c.leftUsed && c.r0 < c.r1 {
        LeftStutter(l, r, c);
      } else if c.rightUsed && c.l0 < c.l1 {
        RightStutter(l, r, c);
      } else {
        LastStutter(l, r, c);
      }
    } else if c.leftUsed && c.rightUsed {
      BothUsed(l, r, c);
    } else {
      if !c.leftUsed && !c.rightUsed {
        FixUpFits(l, r, c);
      }
      FinishFits(l, r, FixUp(l, r, c));
      RepresentKeeps(Spell(l), Spell(r), Finish(l, r, FixUp(l, r, c)));
    }
  }

  // ----- When the scan uses a side up -----

  /** `a` is the first half of itself at the front of `b` and the second half at its end. */
  predicate Halves(a: seq<Segment>, b: seq<Segment>) {
    && 2 <= |a| <= |b| && |a| % 2 == 0
    && a[..|a| / 2] == b[..|a| / 2]
    && a[|a| / 2..] == b[|b| - |a| / 2..]
  }

  /** Once an end fails to match, no side is used up any more. */
  lemma {:induction false} NoneUsed(l: seq<Segment>, r: seq<Segment>, c: Cut)
    requires c.Within(l, r) && !c.leftUsed && !c.rightUsed
    requires l[c.l0] != r[c.r0] || l[c.l1] != r[c.r1]
    ensures !Scan(l, r, c).leftUsed && !Scan(l, r, c).rightUsed
    decreases c.l1 - c.l0
  {
    if c.l0 != c.l1 && c.r0 != c.r1 && Advance(l, r, c) != c {
      NoneUsed(l, r, Advance(l, r, c));
    }
  }

  /** The scan after `k` steps that matched at both ends. */
  predicate Diagonal(l: seq<Segment>, r: seq<Segment>, c: Cut, k: nat) {
    && c.Within(l, r) && !c.leftUsed && !c.rightUsed
    && c.l0 == c.r0 == k && c.l1 == |l| - 1 - k && c.r1 == |r| - 1 - k
    && l[..k] == r[..k] && l[|l| - k..] == r[|r| - k..]
  }

  lemma MatchingEnds(l: seq<Segment>, r: seq<Segment>, k: nat)
    requires k < |l| && k < |r| && l[..k] == r[..k] && l[|l| - k..] == r[|r| - k..]
    ensures l[..k + 1] == r[..k + 1] <==> l[k] == r[k]
    ensures l[|l| - k - 1..] == r[|r| - k - 1..] <==> l[|l| - 1 - k] == r[|r| - 1 - k]
  {
    assert l[..k + 1] == l[..k] + [l[k]] && r[..k + 1] == r[..k] + [r[k]];
    assert l[|l| - k - 1..] == [l[|l| - 1 - k]] + l[|l| - k..];
    assert r[|r| - k - 1..] == [r[|r| - 1 - k]] + r[|r| - k..];
  }

  lemma HalvesMatch(a: seq<Segment>, b: seq<Segment>, k: nat)
    requires Halves(a, b) && k < |a| / 2
    ensures a[k] == b[k] && a[|a| - 1 - k] == b[|b| - 1 - k]
  {
    var h := |a| / 2;
    assert a[..h][k] == b[..h][k];
    assert a[h..][h - 1 - k] == b[|b| - h..][h - 1 - k];
  }

  /** Where a side that is used up has met itself: in the middle of the shorter list. */
  predicate MetInMiddle(l: seq<Segment>, r: seq<Segment>, c: Cut) {
    && (c.leftUsed ==> c.l0 == c.l1 == c.r0 == |l| / 2 && c.r1 == (if |r| == |l| then |l| / 2 else |r| - 1 - |l| / 2))
    && (c.rightUsed ==> c.r0 == c.r1 == c.l0 == |r| / 2 && c.l1 == (if |r| == |l| then |l| / 2 else |l| - 1 - |r| / 2))
  }

  lemma MatchedStep(l: seq<Segment>, r: seq<Segment>, c: Cut, k: nat)
    requires Diagonal(l, r, c, k) && c.l0 < c.l1 && c.r0 < c.r1 && l[c.l0] == r[c.r0] && l[c.l1] == r[c.r1]
    ensures var c' := Advance(l, r, c);
            && (c'.leftUsed <==> |l| == 2 * k + 2) && (c'.rightUsed <==> |r| == 2 * k + 2)
            && MetInMiddle(l, r, c')
            && (!c'.leftUsed && !c'.rightUsed ==> Diagonal(l, r, c', k + 1))
    ensures l[..k + 1] == r[..k + 1] && l[|l| - k - 1..] == r[|r| - k - 1..]
  {
    MatchingEnds(l, r, k);
  }

  lemma HalvesFromEnds(a: seq<Segment>, b: seq<Segment>, h: nat)
    requires |a| == 2 * h <= |b| && h > 0 && a[..h] == b[..h] && a[|a| - h..] == b[|b| - h..]
    ensures Halves(a, b)
  {
  }

  /** A step that matches at both ends and uses a side up ends the scan. */
  lemma UsedByStep(l: seq<Segment>, r: seq<Segment>, c: Cut, k: nat)
    requires Diagonal(l, r, c, k) && c.l0 < c.l1 && c.r0 < c.r1 && l[c.l0] == r[c.r0] && l[c.l1] == r[c.r1]
    ensures var c' := Advance(l, r, c);
            c'.leftUsed || c'.rightUsed ==>
              (c'.leftUsed <==> Halves(l, r)) && (c'.rightUsed <==> Halves(r, l)) && MetInMiddle(l, r, c')
  {
    MatchedStep(l, r, c, k);
    var c' := Advance(l, r, c);
    if c'.leftUsed {
      HalvesFromEnds(l, r, k + 1);
    }
    if c'.rightUsed {
      HalvesFromEnds(r, l, k + 1);
    }
  }

  lemma ScanEnds(l: seq<Segment>, r: seq<Segment>, c: Cut)
    requires c.Within(l, r) && MetInMiddle(l, r, c) && (c.leftUsed || c.rightUsed)
    ensures Scan(l, r, c) == c
  {
  }

  /** A step that does not match at both ends leaves both sides in play. */
  lemma UsedByNone(l: seq<Segment>, r: seq<Segment>, c: Cut, k: nat)
    requires Diagonal(l, r, c, k) && c.l0 < c.l1 && c.r0 < c.r1 && !(l[c.l0] == r[c.r0] && l[c.l1] == r[c.r1])
    ensures var c' := Scan(l, r, c);
            (c'.leftUsed <==> Halves(l, r)) && (c'.rightUsed <==> Halves(r, l)) && MetInMiddle(l, r, c')
  {
    NoneUsed(l, r, c);
    if Halves(l, r) {
      HalvesMatch(l, r, k);
      assert false;
    }
    if Halves(r, l) {
      HalvesMatch(r, l, k);
      assert false;
    }
  }

  lemma {:induction false} UsedUp(l: seq<Segment>, r: seq<Segment>, c: Cut, k: nat)
    requires Diagonal(l, r, c, k)
    ensures var c' := Scan(l, r, c);
            (c'.leftUsed <==> Halves(l, r)) && (c'.rightUsed <==> Halves(r, l)) && MetInMiddle(l, r, c')
    decreases c.l1 - c.l0
  {
    if c.l0 == c.l1 || c.r0 == c.r1 {
    } else if l[c.l0] == r[c.r0] && l[c.l1] == r[c.r1] {
      MatchedStep(l, r, c, k);
      ScanMatched(l, r, c);
      var c' := Advance(l, r, c);
      if !c'.leftUsed && !c'.rightUsed {
        UsedUp(l, r, c', k + 1);
      } else {
        UsedByStep(l, r, c, k);
        ScanEnds(l, r, c');
      }
    } else {
      UsedByNone(l, r, c, k);
    }
  }

  // ----- The exact condition -----

  /** The shorter list `a` is one half at each end of `b`, and the segment where the second
      half starts also stands at an end of what lies between. */
  predicate CountsTwice(a: seq<Segment>, b: seq<Segment>) {
    Halves(a, b) && |a| < |b| &&
    var h := |a| / 2;
    var first, last := b[h], b[|b| - 1 - h];
    if |b| == |a| + 1 then a[h] == first && a[h].kind == MARKER else a[h] == first || a[h] == last
  }

  predicate ReconstructsExactly(left: string, right: string) {
    var l, r := Segs(left), Segs(right);
    && (CountsTwice(l, r) ==> |r| > |l| + 1 && left <= right)
    && !CountsTwice(r, l)
  }

  lemma ScanStutters(l: seq<Segment>, r: seq<Segment>)
    requires l != [] && r != []
    ensures var c := Scan(l, r, Start(l, r));
            && (Stuttered(l, r, c) <==> CountsTwice(l, r) || CountsTwice(r, l))
            && (CountsTwice(l, r) ==> c.leftUsed && (c.r0 < c.r1 <==> |r| > |l| + 1))
            && (CountsTwice(r, l) ==> !c.leftUsed)
  {
    assert l[..0] == r[..0] && l[|l|..] == r[|r|..];
    UsedUp(l, r, Start(l, r), 0);
    StutterCases(l, r, Scan(l, r, Start(l, r)));
  }

  lemma StutterCases(l: seq<Segment>, r: seq<Segment>, c: Cut)
    requires c.Within(l, r) && MetInMiddle(l, r, c) && (c.leftUsed <==> Halves(l, r)) && (c.rightUsed <==> Halves(r, l))
    ensures Stuttered(l, r, c) <==> CountsTwice(l, r) || CountsTwice(r, l)
    ensures CountsTwice(l, r) ==> c.leftUsed && (c.r0 < c.r1 <==> |r| > |l| + 1)
    ensures CountsTwice(r, l) ==> !c.leftUsed
  {
  }

  lemma EmptySplit(left: string, right: string)
    requires Segs(left) == [] || Segs(right) == []
    ensures Reconstructs(SplitDiff(left, right), left, right)
  {
    if Segs(left) == [] {
      SpellSegs(left);
      assert SplitDiff(left, right) == Diff("", "", "", right);
      assert "" + right + "" == right;
    } else {
      SpellSegs(right);
      assert SplitDiff(left, right) == Diff("", "", left, "");
      assert "" + left + "" == left;
    }
  }

  lemma EmptySide(left: string, right: string)
    requires Segs(left) == [] || Segs(right) == []
    ensures ReconstructsExactly(left, right)
  {
  }

  lemma BothSides(left: string, right: string, l: seq<Segment>, r: seq<Segment>)
    requires l == Segs(left) != [] && r == Segs(right) != []
    ensures Reconstructs(SplitDiff(left, right), left, right)
       <==> (CountsTwice(l, r) ==> |r| > |l| + 1 && left <= right) && !CountsTwice(r, l)
  {
    SpellSegs(left);
    SpellSegs(right);
    SegsFilled(left);
    SegsFilled(right);
    SplitIs(left, right);
    SplitOfLists(l, r);
  }

  /** The parts make up both inputs exactly when no segment is counted twice, or the left
      input is a prefix of the right one and the counting spared part of the right. */
  lemma SplitReconstructs(left: string, right: string)
    ensures Reconstructs(SplitDiff(left, right), left, right) <==> ReconstructsExactly(left, right)
  {
    if Segs(left) == [] || Segs(right) == [] {
      EmptySplit(left, right);
      EmptySide(left, right);
    } else {
      BothSides(left, right, Segs(left), Segs(right));
    }
  }

  lemma SplitIs(left: string, right: string)
    requires Segs(left) != [] && Segs(right) != []
    ensures var l, r := Segs(left), Segs(right);
            SplitDiff(left, right) == Represent(left, right, Finish(l, r, FixUp(l, r, Scan(l, r, Start(l, r)))))
  {
  }

  lemma SplitOfLists(l: seq<Segment>, r: seq<Segment>)
    requires l != [] && r != [] && Filled(l) && Filled(r)
    ensures var d := Represent(Spell(l), Spell(r), Finish(l, r, FixUp(l, r, Scan(l, r, Start(l, r)))));
            Reconstructs(d, Spell(l), Spell(r))
            <==> (CountsTwice(l, r) ==> |r| > |l| + 1 && Spell(l) <= Spell(r)) && !CountsTwice(r, l)
  {
    StartFits(l, r);
    ScanFits(l, r, Start(l, r));
    OutcomeOfScan(l, r, Scan(l, r, Start(l, r)));
    ScanStutters(l, r);
  }

  lemma SegsFilled(t: string)
    ensures Filled(Segs(t))
  {
    SegsCanonical(t);
    CanonicalNonEmpty(Segs(t));
  }

  ghost predicate NoRepeats(segs: seq<Segment>) {
    forall i, j :: 0 <= i < j < |segs| ==> segs[i] != segs[j]
  }

  lemma SecondHalfStarts(a: seq<Segment>, b: seq<Segment>)
    requires Halves(a, b)
    ensures a[|a| / 2] == b[|b| - |a| / 2]
  {
    assert a[|a| / 2..][0] == b[|b| - |a| / 2..][0];
  }

  lemma DistinctNotTwice(a: seq<Segment>, b: seq<Segment>)
    requires NoRepeats(b)
    ensures !CountsTwice(a, b)
  {
    if Halves(a, b) && |a| < |b| {
      var h := |a| / 2;
      SecondHalfStarts(a, b);
      assert b[h] != b[|b| - h] && b[|b| - 1 - h] != b[|b| - h];
    }
  }

  /** In particular when neither input repeats a segment. */
  lemma DistinctSegmentsReconstruct(left: string, right: string)
    requires NoRepeats(Segs(left)) && NoRepeats(Segs(right))
    ensures Reconstructs(SplitDiff(left, right), left, right)
  {
    SplitReconstructs(left, right);
    DistinctNotTwice(Segs(left), Segs(right));
    DistinctNotTwice(Segs(right), Segs(left));
  }

  /** The extra marker of `<a><b><b>` over `<a><b>` is lost. */
  lemma RepeatedMarkerIsLost()
    ensures var a, b := Segment(MARKER, "<a>"), Segment(MARKER, "<b>");
            !Reconstructs(SplitDiff(Spell([a, b]), Spell([a, b, b])), Spell([a, b]), Spell([a, b, b]))
  {
    var a, b := Segment(MARKER, "<a>"), Segment(MARKER, "<b>");
    FindCloserUnique('<', "<a>", 2);
    FindCloserUnique('<', "<b>", 2);
    var l, r := [a, b], [a, b, b];
    assert Canonical(l) by { assert l[1..] == [b] && [b][1..] == []; assert Canonical([b]); }
    assert Canonical(r) by {
      assert r[1..] == [b, b] && [b, b][1..] == [b] && [b][1..] == [];
      assert Canonical([b]) && Canonical([b, b]);
    }
    SegsInvertsSpell(l);
    SegsInvertsSpell(r);
    assert Halves(l, r) by { assert l[..1] == r[..1] == [a]; assert l[1..] == r[2..] == [b]; }
    SplitReconstructs(Spell(l), Spell(r));
  }

  // ----- A text against itself; where the split stops -----

  lemma {:induction false} ScanSelf(l: seq<Segment>, c: Cut, k: nat)
    requires Diagonal(l, l, c, k)
    ensures var c' := Scan(l, l, c);
            c'.l0 == c'.l1 == c'.r0 == c'.r1 && c'.leftUsed == c'.rightUsed
    decreases c.l1 - c.l0
  {
    if c.l0 != c.l1 {
      MatchingEnds(l, l, k);
      var c' := Advance(l, l, c);
      if !c'.leftUsed {
        ScanSelf(l, c', k + 1);
      }
    }
  }

  /** A text against itself is all prefix. */
  lemma SelfSplit(s: string)
    ensures SplitDiff(s, s) == Diff(s, "", "", "")
  {
    var l := Segs(s);
    SpellSegs(s);
    if l != [] {
      StartFits(l, l);
      ScanFits(l, l, Start(l, l));
      ScanSelf(l, Start(l, l), 0);
      var c := Scan(l, l, Start(l, l));
      if c.leftUsed {
        BothUsed(l, l, c);
      } else {
        LastSelf(l, c);
      }
    }
  }

  lemma LastSelf(l: seq<Segment>, c: Cut)
    requires c.Within(l, l) && c.l0 == c.l1 == c.r0 == c.r1 && !c.leftUsed && !c.rightUsed
    ensures var d := Finish(l, l, FixUp(l, l, c)); d.left == "" && d.right == ""
  {
    FixUpSelf(l, c);
    if l[c.l0].kind == MARKER {
      BothDone(l, c.(prefix := c.prefix + l[c.l0].value, leftUsed := true, rightUsed := true));
    } else {
      TextLeft(l, c);
    }
  }

  /** What `Finish` is, with its parts named. */
  lemma FinishOf(l: seq<Segment>, r: seq<Segment>, c: Cut, a: string, b: string, front: bool, back: bool)
    requires c.Within(l, r) && a == Spell(l[c.l0..c.LeftEnd()]) && b == Spell(r[c.r0..c.RightEnd()])
    requires front == (l[c.l0].kind == TEXT && r[c.r0].kind == TEXT)
    requires back == (l[c.l1].kind == TEXT && r[c.r1].kind == TEXT)
    ensures Finish(l, r, c) == FinishTexts(a, b, front, back, c.prefix, c.suffix)
  {
  }

  lemma BothDone(l: seq<Segment>, c: Cut)
    requires c.Within(l, l) && c.l0 == c.l1 == c.r0 == c.r1 && c.leftUsed && c.rightUsed
    ensures var d := Finish(l, l, c); d.left == "" && d.right == ""
  {
    var text := l[c.l0].kind == TEXT;
    SpellNothing(l, c.l0);
    FinishOf(l, l, c, "", "", text, text);
    NoTexts(text, text, c.prefix, c.suffix);
  }

  lemma TextLeft(l: seq<Segment>, c: Cut)
    requires c.Within(l, l) && c.l0 == c.l1 == c.r0 == c.r1 && c.leftUsed == c.rightUsed && l[c.l0].kind == TEXT
    ensures var d := Finish(l, l, c); d.left == "" && d.right == ""
  {
    var a := Spell(l[c.l0..c.LeftEnd()]);
    FinishOf(l, l, c, a, a, true, true);
    SameTexts(a, c.prefix, c.suffix);
  }

  lemma FixUpSelf(l: seq<Segment>, c: Cut)
    requires c.Within(l, l) && c.l0 == c.l1 == c.r0 == c.r1
    ensures FixUp(l, l, c)
         == if l[c.l0].kind == MARKER
            then c.(prefix := c.prefix + l[c.l0].value, leftUsed := true, rightUsed := true)
            else c
  {
  }

  /** Equal texts are all common suffix. */
  lemma SameTexts(a: string, prefix: string, suffix: string)
    ensures var d := FinishTexts(a, a, true, true, prefix, suffix); d.left == "" && d.right == ""
  {
    SuffixAgrees(a, a);
  }

  lemma NoTexts(front: bool, back: bool, prefix: string, suffix: string)
    ensures var d := FinishTexts("", "", front, back, prefix, suffix); d.left == "" && d.right == ""
  {
  }

  lemma {:induction false} ScanStops(l: seq<Segment>, r: seq<Segment>, c: Cut)
    requires c.Within(l, r)
    ensures var c' := Scan(l, r, c);
            c'.l0 < c'.l1 && c'.r0 < c'.r1 ==> l[c'.l0] != r[c'.r0] && l[c'.l1] != r[c'.r1]
    decreases c.l1 - c.l0
  {
    if c.l0 != c.l1 && c.r0 != c.r1 && Advance(l, r, c) != c {
      ScanStops(l, r, Advance(l, r, c));
    }
  }

  /** The split does not stop early: when both inputs have segments left, these differ at
      the front and at the back, unless a single equal text is left to the characters. */
  lemma StopsAtDifference(l: seq<Segment>, r: seq<Segment>)
    requires l != [] && r != []
    ensures var c := FixUp(l, r, Scan(l, r, Start(l, r)));
            c.l0 < c.LeftEnd() && c.r0 < c.RightEnd() ==>
              || (l[c.l0] != r[c.r0] && l[c.l1] != r[c.r1])
              || (c.l0 == c.l1 && c.r0 == c.r1 && l[c.l0] == r[c.r0] && l[c.l0].kind == TEXT)
  {
    ScanStops(l, r, Start(l, r));
  }
}
