/**
 Splitting two rendered templates into common prefix, common suffix and the two differing
 parts, aligned on markers. The scan matches segments at both ends at once; when the whole
 shorter side is used up from both ends in one step, a later fix-up may count a segment
 twice, and `ReconstructsExactly` says precisely for which inputs the parts then no longer
 make up the inputs.
 */
module DiffSplit {
  import opened Text
  import opened Segments

  datatype Diff = Diff(prefix: string, suffix: string, left: string, right: string)

  // ----- Common ends of strings -----

  function CommonPrefix(a: string, b: string): (n: nat)
    ensures n <= |a| && n <= |b|
  {
    if a == "" || b == "" || a[0] != b[0] then 0 else 1 + CommonPrefix(a[1..], b[1..])
  }

  function CommonSuffix(a: string, b: string): (n: nat)
    ensures n <= |a| && n <= |b|
    decreases |a|
  {
    if a == "" || b == "" || a[|a| - 1] != b[|b| - 1] then 0 else 1 + CommonSuffix(a[..|a| - 1], b[..|b| - 1])
  }

  /** The common prefix agrees and cannot be longer. */
  lemma {:induction false} PrefixAgrees(a: string, b: string)
    ensures var n := CommonPrefix(a, b);
            a[..n] == b[..n] && (n < |a| && n < |b| ==> a[n] != b[n])
    decreases |a|
  {
    var n := CommonPrefix(a, b);
    if n > 0 {
      PrefixAgrees(a[1..], b[1..]);
      assert a[..n] == [a[0]] + a[1..][..n - 1];
      assert b[..n] == [b[0]] + b[1..][..n - 1];
    }
  }

  /** The common suffix agrees and cannot be longer. */
  lemma {:induction false} SuffixAgrees(a: string, b: string)
    ensures var n := CommonSuffix(a, b);
            a[|a| - n..] == b[|b| - n..] && (n < |a| && n < |b| ==> a[|a| - 1 - n] != b[|b| - 1 - n])
    decreases |a|
  {
    var n := CommonSuffix(a, b);
    if n > 0 {
      SuffixAgrees(a[..|a| - 1], b[..|b| - 1]);
      LastOfTail(a, n);
      LastOfTail(b, n);
    }
  }

  lemma LastOfTail(a: string, n: nat)
    requires 0 < n <= |a|
    ensures a[|a| - n..] == a[..|a| - 1][|a| - n..] + [a[|a| - 1]]
  {
  }

  method CommonPrefixLen(left: string, right: string) returns (n: nat)
    ensures n == CommonPrefix(left, right)
  {
    n := 0;
    var minLen := if |left| <= |right| then |left| else |right|;
    assert left[0..] == left && right[0..] == right;
    while n < minLen && left[n] == right[n]
      invariant n <= minLen
      invariant CommonPrefix(left, right) == n + CommonPrefix(left[n..], right[n..])
    {
      assert left[n..][1..] == left[n + 1..] && right[n..][1..] == right[n + 1..];
      n := n + 1;
    }
  }

  method CommonSuffixLen(left: string, right: string) returns (n: nat)
    ensures n == CommonSuffix(left, right)
  {
    n := 0;
    var minLen := if |left| <= |right| then |left| else |right|;
    assert left[..|left|] == left && right[..|right|] == right;
    while n < minLen && left[|left| - 1 - n] == right[|right| - 1 - n]
      invariant n <= minLen
      invariant CommonSuffix(left, right) == n + CommonSuffix(left[..|left| - n], right[..|right| - n])
    {
      OneMoreBehind(left, right, n);
      n := n + 1;
    }
    NoMoreBehind(left, right, n);
  }

  lemma OneMoreBehind(a: string, b: string, n: nat)
    requires n < |a| && n < |b| && a[|a| - 1 - n] == b[|b| - 1 - n]
    ensures CommonSuffix(a[..|a| - n], b[..|b| - n]) == 1 + CommonSuffix(a[..|a| - (n + 1)], b[..|b| - (n + 1)])
  {
    var u, v := a[..|a| - n], b[..|b| - n];
    assert u[..|u| - 1] == a[..|a| - (n + 1)];
    assert v[..|v| - 1] == b[..|b| - (n + 1)];
  }

  lemma NoMoreBehind(a: string, b: string, n: nat)
    requires n <= |a| && n <= |b| && (n < |a| && n < |b| ==> a[|a| - 1 - n] != b[|b| - 1 - n])
    ensures CommonSuffix(a[..|a| - n], b[..|b| - n]) == 0
  {
  }

  // ----- The scan over segments -----

  /** The iterators and flags: `l0..l1` and `r0..r1` are the first and last segments still
      in play; a used-up side has consumed even its last one. */
  datatype Cut = Cut(l0: nat, l1: nat, r0: nat, r1: nat, leftUsed: bool, rightUsed: bool, prefix: string,
      suffix: string)
  {
    predicate Within(l: seq<Segment>, r: seq<Segment>) {
      l0 <= l1 < |l| && r0 <= r1 < |r|
    }

    function LeftEnd(): nat { if leftUsed then l1 else l1 + 1 }

    function RightEnd(): nat { if rightUsed then r1 else r1 + 1 }
  }

  /** The first half of the loop body: a match at the front. */
  function PrefixStep(l: seq<Segment>, r: seq<Segment>, c: Cut): (c': Cut)
    requires c.Within(l, r) && c.l0 < c.l1 && c.r0 < c.r1
    ensures c'.Within(l, r)
  {
    if l[c.l0] == r[c.r0] then c.(prefix := c.prefix + l[c.l0].value, l0 := c.l0 + 1, r0 := c.r0 + 1) else c
  }

  /** The second half: a match at the back. */
  function SuffixStep(l: seq<Segment>, r: seq<Segment>, c: Cut): (c': Cut)
    requires c.Within(l, r)
    ensures c'.Within(l, r)
  {
    if l[c.l1] == r[c.r1] then
      var c2 := c.(suffix := l[c.l1].value + c.suffix);
      var c3 := if c2.l0 != c2.l1 then c2.(l1 := c2.l1 - 1) else c2.(leftUsed := true);
      if c3.r0 != c3.r1 then c3.(r1 := c3.r1 - 1) else c3.(rightUsed := true)
    else c
  }

  function Advance(l: seq<Segment>, r: seq<Segment>, c: Cut): (c': Cut)
    requires c.Within(l, r) && c.l0 < c.l1 && c.r0 < c.r1
    ensures c'.Within(l, r)
  {
    SuffixStep(l, r, PrefixStep(l, r, c))
  }

  function Scan(l: seq<Segment>, r: seq<Segment>, c: Cut): (c': Cut)
    requires c.Within(l, r)
    ensures c'.Within(l, r)
    decreases c.l1 - c.l0
  {
    if c.l0 == c.l1 || c.r0 == c.r1 then c
    else
      var c' := Advance(l, r, c);
      if c' == c then c else Scan(l, r, c')
  }

  lemma ScanMatched(l: seq<Segment>, r: seq<Segment>, c: Cut)
    requires c.Within(l, r) && c.l0 != c.l1 && c.r0 != c.r1 && (l[c.l0] == r[c.r0] || l[c.l1] == r[c.r1])
    ensures Scan(l, r, c) == Scan(l, r, Advance(l, r, c))
  {
  }

  lemma ScanRests(l: seq<Segment>, r: seq<Segment>, c: Cut)
    requires c.Within(l, r)
    requires c.l0 == c.l1 || c.r0 == c.r1 || (l[c.l0] != r[c.r0] && l[c.l1] != r[c.r1])
    ensures Scan(l, r, c) == c
  {
  }

  function Start(l: seq<Segment>, r: seq<Segment>): Cut
    requires l != [] && r != []
  {
    Cut(0, |l| - 1, 0, |r| - 1, false, false, "", "")
  }

  /** The fix-ups when one side is down to its last segment. */
  function FixUp(l: seq<Segment>, r: seq<Segment>, c: Cut): (c': Cut)
    requires c.Within(l, r)
    ensures c'.Within(l, r)
  {
    if c.l0 == c.l1 && c.r0 != c.r1 then
      if l[c.l0] == r[c.r1] then c.(suffix := r[c.r1].value + c.suffix, r1 := c.r1 - 1, leftUsed := true)
      else if l[c.l0] == r[c.r0] then c.(prefix := c.prefix + r[c.r0].value, r0 := c.r0 + 1, leftUsed := true)
      else c
    else if c.r0 == c.r1 && c.l0 != c.l1 then
      if l[c.l1] == r[c.r0] then c.(suffix := l[c.l1].value + c.suffix, l1 := c.l1 - 1, rightUsed := true)
      else if l[c.l0] == r[c.r0] then c.(prefix := c.prefix + l[c.l0].value, l0 := c.l0 + 1, rightUsed := true)
      else c
    else if c.l0 == c.l1 && c.r0 == c.r1 && l[c.l0] == r[c.r0] && l[c.l0].kind == MARKER then
      c.(prefix := c.prefix + r[c.r0].value, leftUsed := true, rightUsed := true)
    else c
  }

  /** The split of the remainders, character by character where they are text. */
  function Finish(l: seq<Segment>, r: seq<Segment>, c: Cut): Diff
    requires c.Within(l, r)
  {
    FinishTexts(Spell(l[c.l0..c.LeftEnd()]), Spell(r[c.r0..c.RightEnd()]),
                l[c.l0].kind == TEXT && r[c.r0].kind == TEXT, l[c.l1].kind == TEXT && r[c.r1].kind == TEXT,
                c.prefix, c.suffix)
  }

  /** The remainders `a` and `b` with their common ends cut off, at the front when they start
      with text and at the back when they end with text. */
  function FinishTexts(a: string, b: string, front: bool, back: bool, prefix: string, suffix: string): Diff {
    var s := if back then CommonSuffix(a, b) else 0;
    var p := if front then CommonPrefix(a[..|a| - s], b[..|b| - s]) else 0;
    Parts(a, b, p, s, prefix, suffix)
  }

  /** The remainders without their first `p` and last `s` characters, which join the ends. */
  function Parts(a: string, b: string, p: nat, s: nat, prefix: string, suffix: string): Diff
    requires p + s <= |a| && p + s <= |b|
  {
    Diff(prefix + a[..p], a[|a| - s..] + suffix, a[p..|a| - s], b[p..|b| - s])
  }

  /** The two representations chosen when one input adds nothing of its own. */
  function Represent(left: string, right: string, d: Diff): Diff {
    var d1 := if d.left == "" && d.right == "" then d.(prefix := left, suffix := "") else d;
    if d1.left == "" && d1.right != "" && left <= right then Diff(left, "", d1.left, right[|left|..]) else d1
  }

  function SplitDiff(left: string, right: string): Diff {
    var l, r := Segs(left), Segs(right);
    if l == [] then Diff("", "", "", right)
    else if r == [] then Diff("", "", left, "")
    else Represent(left, right, Finish(l, r, FixUp(l, r, Scan(l, r, Start(l, r)))))
  }

  method CalculateDiffSplit(left: string, right: string) returns (result: Diff)
    ensures result == SplitDiff(left, right)
  {
    var l := SegmentizeMarkers(left);
    var r := SegmentizeMarkers(right);
    if l == [] {
      return Diff("", "", "", right);
    }
    if r == [] {
      return Diff("", "", left, "");
    }
    var c := ScanSegments(l, r);
    c := FixUp(l, r, c);
    var d := FinishSplit(l, r, c);
    if d.left == "" && d.right == "" {
      d := d.(prefix := left, suffix := "");
    }
    if d.left == "" && d.right != "" && left <= right {
      d := d.(prefix := left, suffix := "", right := right[|left|..]);
    }
    return d;
  }

  method ScanSegments(l: seq<Segment>, r: seq<Segment>) returns (c: Cut)
    requires l != [] && r != []
    ensures c == Scan(l, r, Start(l, r))
  {
    var l0, l1, r0, r1 := 0, |l| - 1, 0, |r| - 1;
    var leftUsed, rightUsed, prefix, suffix := false, false, "", "";
    ghost var outcome := Scan(l, r, Start(l, r));
    while l0 != l1 && r0 != r1
      invariant 0 <= l0 <= l1 < |l| && 0 <= r0 <= r1 < |r|
      invariant Scan(l, r, Cut(l0, l1, r0, r1, leftUsed, rightUsed, prefix, suffix)) == outcome
      decreases l1 - l0
    {
      ghost var was := Cut(l0, l1, r0, r1, leftUsed, rightUsed, prefix, suffix);
      var advanced := false;
      if l[l0] == r[r0] {
        prefix := prefix + l[l0].value;
        l0 := l0 + 1;
        r0 := r0 + 1;
        advanced := true;
      }
      ghost var mid := Cut(l0, l1, r0, r1, leftUsed, rightUsed, prefix, suffix);
      assert mid == PrefixStep(l, r, was);
      if l[l1] == r[r1] {
        suffix := l[l1].value + suffix;
        if l0 != l1 {
          l1 := l1 - 1;
        } else {
          leftUsed := true;
        }
        if r0 != r1 {
          r1 := r1 - 1;
        } else {
          rightUsed := true;
        }
        advanced := true;
      }
      assert Cut(l0, l1, r0, r1, leftUsed, rightUsed, prefix, suffix) == SuffixStep(l, r, mid);
      if !advanced {
        break;
      }
      ScanMatched(l, r, was);
    }
    c := Cut(l0, l1, r0, r1, leftUsed, rightUsed, prefix, suffix);
    ScanRests(l, r, c);
  }

  method FinishSplit(l: seq<Segment>, r: seq<Segment>, c: Cut) returns (d: Diff)
    requires c.Within(l, r)
    ensures d == Finish(l, r, c)
  {
    var textSuffix := l[c.l1].kind == TEXT && r[c.r1].kind == TEXT;
    var textPrefix := r[c.r0].kind == TEXT && l[c.l0].kind == TEXT;
    var a, b := Spell(l[c.l0..c.LeftEnd()]), Spell(r[c.r0..c.RightEnd()]);
    d := CutCommonEnds(a, b, textPrefix, textSuffix, c.prefix, c.suffix);
  }

  method CutCommonEnds(a: string, b: string, front: bool, back: bool, prefix: string, suffix: string) returns (d: Diff)
    ensures d == FinishTexts(a, b, front, back, prefix, suffix)
  {
    var suffixLen, prefixLen := 0, 0;
    if back {
      suffixLen := CommonSuffixLen(a, b);
    }
    if front {
      prefixLen := CommonPrefixLen(a[..|a| - suffixLen], b[..|b| - suffixLen]);
    }
    d := Parts(a, b, prefixLen, suffixLen, prefix, suffix);
  }
}
