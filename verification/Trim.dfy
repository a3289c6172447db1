/** The three whitespace trimmers of the tool-call mapper. A negative `max` means no limit. */
module Trim {
  import opened Text

  function Trailing(s: string, max: int): (r: string)
    ensures r <= s
    decreases s
  {
    if s != "" && IsSpace(s[|s| - 1]) && max != 0 then Trailing(s[..|s| - 1], if max > 0 then max - 1 else max)
    else s
  }

  function Leading(s: string, max: int): (r: string)
    ensures |r| <= |s| && r == s[|s| - |r|..]
    decreases s
  {
    if s != "" && IsSpace(s[0]) && max != 0 then Leading(s[1..], if max > 0 then max - 1 else max)
    else s
  }

  /** `trim` drops one leading space at most, and every trailing one. */
  function Both(s: string): string {
    Trailing(Leading(s, 1), -1)
  }

  method TrimTrailingSpace(sv: string, max: int) returns (r: string)
    requires max >= -1
    ensures r == Trailing(sv, max)
  {
    r := sv;
    var count := 0;
    while r != "" && IsSpace(r[|r| - 1])
      invariant max == -1 || 0 <= count <= max
      invariant Trailing(r, if max == -1 then max else max - count) == Trailing(sv, max)
      decreases |r|
    {
      if max != -1 && count >= max {
        break;
      }
      r := r[..|r| - 1];
      count := count + 1;
    }
  }

  method TrimLeadingSpace(sv: string, max: int) returns (r: string)
    requires max >= -1
    ensures r == Leading(sv, max)
  {
    r := sv;
    var count := 0;
    while r != "" && IsSpace(r[0])
      invariant max == -1 || 0 <= count <= max
      invariant Leading(r, if max == -1 then max else max - count) == Leading(sv, max)
      decreases |r|
    {
      if max != -1 && count >= max {
        break;
      }
      r := r[1..];
      count := count + 1;
    }
  }

  /** Without a limit, trimming removes exactly the trailing blanks: what is left does
      not end in one, and everything dropped is one. */
  lemma TrailingUnlimited(s: string)
    ensures var r := Trailing(s, -1);
            && (r != "" ==> !IsSpace(r[|r| - 1]))
            && forall i :: |r| <= i < |s| ==> IsSpace(s[i])
    decreases s
  {
    if s != "" && IsSpace(s[|s| - 1]) {
      TrailingUnlimited(s[..|s| - 1]);
      var r := Trailing(s, -1);
      forall i | |r| <= i < |s| ensures IsSpace(s[i]) {
        if i < |s| - 1 {
          assert s[i] == s[..|s| - 1][i];
        }
      }
    }
  }

  /** With a limit, at most that many blanks go from the end, and fewer only when no more
      are there. */
  lemma {:induction false} TrailingLimited(s: string, max: nat)
    ensures var r := Trailing(s, max);
            && |s| - |r| <= max
            && (r != "" && IsSpace(r[|r| - 1]) ==> |s| - |r| == max)
            && forall i :: |r| <= i < |s| ==> IsSpace(s[i])
    decreases s
  {
    if s != "" && IsSpace(s[|s| - 1]) && max != 0 {
      TrailingLimited(s[..|s| - 1], max - 1);
      var r := Trailing(s, max);
      forall i | |r| <= i < |s| ensures IsSpace(s[i]) {
        if i < |s| - 1 {
          assert s[i] == s[..|s| - 1][i];
        }
      }
    }
  }

  /** The same at the front. */
  lemma {:induction false} LeadingLimited(s: string, max: nat)
    ensures var r := Leading(s, max);
            && |s| - |r| <= max
            && (r != "" && IsSpace(r[0]) ==> |s| - |r| == max)
            && forall i :: 0 <= i < |s| - |r| ==> IsSpace(s[i])
    decreases s
  {
    if s != "" && IsSpace(s[0]) && max != 0 {
      LeadingLimited(s[1..], max - 1);
      OneMoreBlank(s, |s| - 1 - |Leading(s[1..], max - 1)|);
    }
  }

  lemma OneMoreBlank(s: string, n: nat)
    requires n < |s| && IsSpace(s[0]) && forall i :: 0 <= i < n ==> IsSpace(s[1..][i])
    ensures forall i :: 0 <= i < n + 1 ==> IsSpace(s[i])
  {
    forall i | 0 <= i < n + 1 ensures IsSpace(s[i]) {
      assert i > 0 ==> s[i] == s[1..][i - 1];
    }
  }

  lemma OneInFront(s: string)
    ensures Leading(s, 1) == if s != "" && IsSpace(s[0]) then s[1..] else s
  {
  }

  lemma TailBlanks(s: string, front: nat, from: nat)
    requires front <= |s| && forall i :: from <= i < |s[front..]| ==> IsSpace(s[front..][i])
    ensures forall i :: front + from <= i < |s| ==> IsSpace(s[i])
  {
    forall i | front + from <= i < |s| ensures IsSpace(s[i]) {
      assert s[i] == s[front..][i - front];
    }
  }

  /** A key loses one blank in front if it has any, and all blanks behind. */
  lemma KeyTrimmed(s: string)
    ensures var front := if s != "" && IsSpace(s[0]) then 1 else 0;
            var r := Both(s);
            && r <= s[front..]
            && (r != "" ==> !IsSpace(r[|r| - 1]))
            && forall i :: front + |r| <= i < |s| ==> IsSpace(s[i])
  {
    var front := if s != "" && IsSpace(s[0]) then 1 else 0;
    OneInFront(s);
    assert s[front..] == Leading(s, 1);
    TrailingUnlimited(s[front..]);
    TailBlanks(s, front, |Both(s)|);
  }
}
