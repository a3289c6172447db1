/**
 Greedy line wrapping for help texts: a line that fits is kept as it is, a longer one is cut
 into words that are packed one by one. The words survive in order, and no other split of
 the same words into allowed lines is shorter.
 */
module LineWrap {
  import opened Text

  // ----- Words and lines of a text -----

  /** The words of `s`, when `word` was already read of the first one. */
  function WordsFrom(s: string, word: string): seq<string> {
    WordsBy(s, word, CBlanks)
  }

  function Words(s: string): seq<string> {
    WordsFrom(s, "")
  }

  predicate IsWord(w: string) {
    w != "" && forall k :: 0 <= k < |w| ==> !IsSpace(w[k])
  }

  /** The lines `getline` delivers: none after a final newline. */
  function Lines(s: string, line: string): seq<string>
    decreases |s|
  {
    if s == "" then AsWords(line)
    else if s[0] == '\n' then [line] + Lines(s[1..], "")
    else Lines(s[1..], line + [s[0]])
  }

  // ----- Packing words -----

  function Glue(current: string, word: string): string {
    (if current != "" then current + " " else "") + word
  }

  /** The lines still to come, when `current` is the line being filled. */
  function Packed(words: seq<string>, current: string, max: nat): seq<string> {
    if words == [] then AsWords(current)
    else if |current| + (if current != "" then 1 else 0) + |words[0]| > max then
      AsWords(current) + Packed(words[1..], words[0], max)
    else Packed(words[1..], Glue(current, words[0]), max)
  }

  function BrokenLine(line: string, max: nat): seq<string> {
    if |line| <= max then [line] else Packed(Words(line), "", max)
  }

  function Broken(lines: seq<string>, max: nat): seq<string> {
    if lines == [] then [] else BrokenLine(lines[0], max) + Broken(lines[1..], max)
  }

  // ----- The loops -----

  /** `stream >> word`: the next word from `pos`, empty when there is none. */
  method NextWord(line: string, pos: nat) returns (word: string, next: nat)
    requires pos <= |line|
    ensures pos <= next <= |line|
    ensures Words(line[pos..]) == Upcoming(word, Words(line[next..]))
    ensures word != "" ==> pos < next
  {
    next := pos;
    while next < |line| && IsSpace(line[next])
      invariant pos <= next <= |line|
      invariant Words(line[pos..]) == Words(line[next..])
    {
      assert line[next..][1..] == line[next + 1..];
      next := next + 1;
    }
    word := "";
    while next < |line| && !IsSpace(line[next])
      invariant pos <= next <= |line|
      invariant word != "" ==> pos < next
      invariant word == "" ==> next == |line| || !IsSpace(line[next])
      invariant Words(line[pos..]) == WordsFrom(line[next..], word)
    {
      assert line[next..][1..] == line[next + 1..];
      word := word + [line[next]];
      next := next + 1;
    }
    if next < |line| {
      assert line[next..][1..] == line[next + 1..];
    }
  }

  /** `add_line`. */
  method AddLine(result: seq<string>, line: string, max: nat) returns (r: seq<string>)
    ensures r == result + BrokenLine(line, max)
  {
    r := result;
    if |line| <= max {
      r := r + [line];
      return;
    }
    r := PackWords(result, line, max);
  }

  /** The words of a line that is too long, packed one by one. */
  method PackWords(result: seq<string>, line: string, max: nat) returns (r: seq<string>)
    ensures r == result + Packed(Words(line), "", max)
  {
    r := result;
    var current := "";
    var word, pos := NextWord(line, 0);
    assert line[0..] == line;
    ghost var goal := result + Packed(Words(line), "", max);
    while word != ""
      invariant pos <= |line|
      invariant Due(r, Upcoming(word, Words(line[pos..])), current, max, goal)
      decreases |line| - pos, |word|
    {
      DueStep(r, word, Words(line[pos..]), current, max, goal);
      if |current| + (if current != "" then 1 else 0) + |word| > max {
        if current != "" {
          r := r + [current];
        }
        current := word;
      } else {
        current := current + (if current != "" then " " else "") + word;
      }
      word, pos := NextWord(line, pos);
    }
    if current != "" {
      r := r + [current];
    }
  }

  /** The words from the one just read. */
  function Upcoming(word: string, more: seq<string>): seq<string> {
    if word == "" then [] else [word] + more
  }

  /** What is packed and what is still to be packed make up the goal. */
  ghost predicate Due(r: seq<string>, words: seq<string>, current: string, max: nat, goal: seq<string>) {
    r + Packed(words, current, max) == goal
  }

  lemma DueStep(r: seq<string>, word: string, more: seq<string>, current: string, max: nat, goal: seq<string>)
    requires word != "" && Due(r, Upcoming(word, more), current, max, goal)
    ensures var overflow := |current| + (if current != "" then 1 else 0) + |word| > max;
            && (overflow && current != "" ==> Due(r + [current], more, word, max, goal))
            && (overflow && current == "" ==> Due(r, more, word, max, goal))
            && (!overflow ==> Due(r, more, Glue(current, word), max, goal))
  {
    assert ([word] + more)[1..] == more;
    Associative(r, [current], Packed(more, word, max));
    assert [] + Packed(more, word, max) == Packed(more, word, max);
  }

  /** `break_str_into_lines`. */
  method BreakIntoLines(input: string, max: nat) returns (result: seq<string>)
    ensures result == Broken(Lines(input, ""), max)
  {
    result := [];
    var pos := 0;
    assert input[0..] == input;
    while pos < |input|
      invariant pos <= |input|
      invariant result + Broken(Lines(input[pos..], ""), max) == Broken(Lines(input, ""), max)
    {
      var line, next := GetLine(input, pos);
      ghost var before := result;
      result := AddLine(result, line, max);
      Added(before, line, Lines(input[next..], ""), max);
      pos := next;
    }
  }

  lemma Added(before: seq<string>, line: string, more: seq<string>, max: nat)
    ensures before + Broken([line] + more, max) == (before + BrokenLine(line, max)) + Broken(more, max)
  {
    assert ([line] + more)[1..] == more;
    Associative(before, BrokenLine(line, max), Broken(more, max));
  }

  /** `getline` where something is left to read. */
  method GetLine(input: string, pos: nat) returns (line: string, next: nat)
    requires pos < |input|
    ensures pos < next <= |input|
    ensures Lines(input[pos..], "") == [line] + Lines(input[next..], "")
  {
    line, next := "", pos;
    while next < |input| && input[next] != '\n'
      invariant pos <= next <= |input|
      invariant |line| == next - pos
      invariant Lines(input[pos..], "") == Lines(input[next..], line)
    {
      assert input[next..][1..] == input[next + 1..];
      line := line + [input[next]];
      next := next + 1;
    }
    if next < |input| {
      assert input[next..][1..] == input[next + 1..];
      next := next + 1;
    }
  }

  // ----- The words are kept -----

  predicate AllWords(g: seq<string>) {
    forall k :: 0 <= k < |g| ==> IsWord(g[k])
  }

  /** The words read from a text are words. */
  lemma {:induction false} WordsAreWords(s: string, word: string)
    requires word == "" || IsWord(word)
    ensures AllWords(WordsFrom(s, word))
    decreases |s|
  {
    if s != "" {
      if IsSpace(s[0]) {
        WordsAreWords(s[1..], "");
      } else {
        WordsAreWords(s[1..], word + [s[0]]);
      }
    }
  }

  /** Words joined by single spaces are read back. */
  lemma {:induction false} WordsOfJoin(g: seq<string>)
    requires AllWords(g)
    ensures Words(Join(" ", g)) == g
    decreases |g|
  {
    if |g| == 1 {
      WordsOfRun(g[0], "", CBlanks);
      assert "" + g[0] == g[0];
    } else if |g| > 1 {
      WordsAround(g[0], ' ', Join(" ", g[1..]), "", CBlanks);
      WordsOfRun(g[0], "", CBlanks);
      assert "" + g[0] == g[0];
      WordsOfJoin(g[1..]);
    }
  }

  // ----- The packed lines as groups of words -----

  function Started(current: seq<string>): seq<seq<string>> {
    if current == [] then [] else [current]
  }

  function Groups(words: seq<string>, current: seq<string>, max: nat): seq<seq<string>> {
    if words == [] then Started(current)
    else if |Join(" ", current + [words[0]])| > max then
      Started(current) + Groups(words[1..], [words[0]], max)
    else Groups(words[1..], current + [words[0]], max)
  }

  function Flat<T>(groups: seq<seq<T>>): seq<T> {
    if groups == [] then [] else groups[0] + Flat(groups[1..])
  }

  function Joined(groups: seq<seq<string>>): seq<string> {
    if groups == [] then [] else [Join(" ", groups[0])] + Joined(groups[1..])
  }

  lemma {:induction false} JoinAppend(g: seq<string>, w: string)
    requires AllWords(g)
    ensures Join(" ", g + [w]) == Glue(Join(" ", g), w)
    ensures Join(" ", g) == "" <==> g == []
    decreases |g|
  {
    if |g| == 1 {
      assert (g + [w])[1..] == [w];
    } else if |g| > 1 {
      assert (g + [w])[1..] == g[1..] + [w];
      JoinAppend(g[1..], w);
      Regrouped(g[0] + " ", Join(" ", g[1..]), " ", w);
    }
  }

  lemma CloseLine(current: seq<string>, more: seq<seq<string>>)
    ensures Flat(Started(current) + more) == current + Flat(more)
    ensures current == [] ==> Started(current) + more == more
    ensures current != [] ==> Joined(Started(current) + more) == [Join(" ", current)] + Joined(more)
  {
    if current == [] {
      assert Started(current) + more == more;
      assert current + Flat(more) == Flat(more);
    } else {
      assert (Started(current) + more)[1..] == more;
    }
  }

  lemma Regrouped(a: string, b: string, c: string, d: string)
    ensures a + ((b + c) + d) == ((a + b) + c) + d
  {
  }

  /** Packing strings is packing groups of words. */
  lemma {:induction false} PackedGroups(words: seq<string>, current: seq<string>, max: nat)
    requires AllWords(words) && AllWords(current)
    ensures Packed(words, Join(" ", current), max) == Joined(Groups(words, current, max))
    decreases |words|
  {
    if words == [] {
      JoinAppend(current, "");
    } else {
      JoinAppend(current, words[0]);
      CloseLine(current, Groups(words[1..], [words[0]], max));
      PackedGroups(words[1..], [words[0]], max);
      PackedGroups(words[1..], current + [words[0]], max);
    }
  }

  /** A line may hold one word of any length, or several that fit together. */
  predicate Allowed(g: seq<string>, max: nat) {
    |g| == 1 || (|g| > 1 && |Join(" ", g)| <= max)
  }

  /** A split of `words` into allowed lines, in order. */
  predicate Split(groups: seq<seq<string>>, words: seq<string>, max: nat) {
    Flat(groups) == words && forall k :: 0 <= k < |groups| ==> Allowed(groups[k], max)
  }

  lemma {:induction false} GroupsSplit(words: seq<string>, current: seq<string>, max: nat)
    requires current == [] || Allowed(current, max)
    ensures Split(Groups(words, current, max), current + words, max)
    decreases |words|
  {
    if words == [] {
      assert current + words == current;
      assert Flat([current]) == current + Flat([]);
    } else {
      assert (current + [words[0]]) + words[1..] == current + words;
      assert [words[0]] + words[1..] == words;
      if |Join(" ", current + [words[0]])| > max {
        GroupsSplit(words[1..], [words[0]], max);
        CloseLine(current, Groups(words[1..], [words[0]], max));
      } else {
        GroupsSplit(words[1..], current + [words[0]], max);
      }
    }
  }

  // ----- Greedy is optimal -----

  lemma {:induction false} JoinGrowsFront(p: seq<string>, g: seq<string>)
    ensures |Join(" ", p + g)| >= |Join(" ", g)|
    decreases |p|
  {
    if p == [] {
      assert p + g == g;
    } else {
      assert (p + g)[1..] == p[1..] + g;
      JoinGrowsFront(p[1..], g);
    }
  }

  lemma {:induction false} JoinGrowsBack(g: seq<string>, q: seq<string>)
    ensures |Join(" ", g + q)| >= |Join(" ", g)|
    decreases |g|
  {
    if g == [] {
    } else if |g| == 1 {
      assert (g + q)[0] == g[0];
    } else {
      assert (g + q)[1..] == g[1..] + q;
      JoinGrowsBack(g[1..], q);
    }
  }

  /** A line that has room for more than `p + current + [w]` has room for `current + [w]`. */
  lemma Covers(g: seq<string>, p: seq<string>, current: seq<string>, w: string, max: nat)
    requires p + current + [w] <= g && current != [] && Allowed(g, max)
    ensures |Join(" ", current + [w])| <= max
  {
    var q := g[|p + current + [w]|..];
    assert g == (p + (current + [w])) + q;
    JoinGrowsBack(p + (current + [w]), q);
    JoinGrowsFront(p, current + [w]);
  }

  /** Greedy stays ahead: any split that has yet to place `p` and the line being filled,
      too, needs at least as many more lines. */
  lemma {:induction false} StaysAhead(words: seq<string>, p: seq<string>, current: seq<string>, max: nat,
      groups: seq<seq<string>>)
    requires current != [] && Split(groups, p + current + words, max)
    ensures |Groups(words, current, max)| <= |groups|
    decreases |words|
  {
    if words != [] {
      var w := words[0];
      assert [w] + words[1..] == words;
      if |Join(" ", current + [w])| <= max {
        assert p + (current + [w]) + words[1..] == p + current + words;
        StaysAhead(words[1..], p, current + [w], max, groups);
      } else {
        var n := |groups[0]|;
        assert groups[0] <= p + current + words;
        if n > |p + current| {
          assert p + current + [w] <= groups[0];
          Covers(groups[0], p, current, w, max);
        } else {
          var left := (p + current)[n..];
          assert Flat(groups[1..]) == (p + current + words)[n..] == left + [w] + words[1..];
          StaysAhead(words[1..], left, [w], max, groups[1..]);
        }
      }
    }
  }

  /** A re-wrapped line is an allowed split of its words, and the shortest one. */
  lemma FewestLines(line: string, max: nat, groups: seq<seq<string>>)
    requires |line| > max
    ensures var g := Groups(Words(line), [], max);
            BrokenLine(line, max) == Joined(g) && Split(g, Words(line), max)
    ensures Split(groups, Words(line), max) ==> |BrokenLine(line, max)| <= |groups|
  {
    var words := Words(line);
    WordsAreWords(line, "");
    PackedGroups(words, [], max);
    GroupsSplit(words, [], max);
    assert [] + words == words;
    JoinedLength(Groups(words, [], max));
    if Split(groups, words, max) && words != [] {
      assert [] + [words[0]] + words[1..] == words;
      assert [] + [words[0]] == [words[0]];
      StaysAhead(words[1..], [], [words[0]], max, groups);
    }
  }

  lemma JoinedLength(groups: seq<seq<string>>)
    ensures |Joined(groups)| == |groups|
  {
  }

  // ----- The whole text -----

  function WordsOfAll(lines: seq<string>): seq<string> {
    if lines == [] then [] else Words(lines[0]) + WordsOfAll(lines[1..])
  }

  lemma {:induction false} WordsOfAllAppend(a: seq<string>, b: seq<string>)
    ensures WordsOfAll(a + b) == WordsOfAll(a) + WordsOfAll(b)
    decreases |a|
  {
    if a == [] {
      assert a + b == b;
    } else {
      assert (a + b)[1..] == a[1..] + b;
      WordsOfAllAppend(a[1..], b);
    }
  }

  lemma {:induction false} WordsOfLines(s: string, line: string)
    ensures WordsOfAll(Lines(s, line)) == Words(line + s)
    decreases |s|
  {
    if s == "" {
      assert line + s == line;
      assert WordsOfAll([line]) == Words(line) + WordsOfAll([]);
    } else if s[0] == '\n' {
      WordsOfLines(s[1..], "");
      assert "" + s[1..] == s[1..];
      assert ([line] + Lines(s[1..], ""))[1..] == Lines(s[1..], "");
      WordsAround(line, '\n', s[1..], "", CBlanks);
      assert line + ['\n'] + s[1..] == line + s;
    } else {
      WordsOfLines(s[1..], line + [s[0]]);
      assert (line + [s[0]]) + s[1..] == line + s;
    }
  }

  lemma {:induction false} WordsOfJoined(groups: seq<seq<string>>)
    requires AllWords(Flat(groups))
    ensures WordsOfAll(Joined(groups)) == Flat(groups)
    decreases |groups|
  {
    if groups != [] {
      var rest := Flat(groups[1..]);
      assert forall k :: 0 <= k < |groups[0]| ==> groups[0][k] == Flat(groups)[k];
      assert forall k :: 0 <= k < |rest| ==> rest[k] == Flat(groups)[|groups[0]| + k];
      WordsOfJoin(groups[0]);
      WordsOfJoined(groups[1..]);
      assert Joined(groups)[1..] == Joined(groups[1..]);
    }
  }

  lemma WordsOfBrokenLine(line: string, max: nat)
    ensures WordsOfAll(BrokenLine(line, max)) == Words(line)
  {
    if |line| <= max {
      assert WordsOfAll([line]) == Words(line) + WordsOfAll([]);
    } else {
      FewestLines(line, max, []);
      WordsAreWords(line, "");
      WordsOfJoined(Groups(Words(line), [], max));
    }
  }

  lemma {:induction false} WordsOfBroken(lines: seq<string>, max: nat)
    ensures WordsOfAll(Broken(lines, max)) == WordsOfAll(lines)
    decreases |lines|
  {
    if lines != [] {
      WordsOfBrokenLine(lines[0], max);
      WordsOfBroken(lines[1..], max);
      WordsOfAllAppend(BrokenLine(lines[0], max), Broken(lines[1..], max));
    }
  }

  /** Breaking a text keeps its words in order. */
  lemma WordsAreKept(input: string, max: nat)
    ensures WordsOfAll(Broken(Lines(input, ""), max)) == Words(input)
  {
    WordsOfBroken(Lines(input, ""), max);
    WordsOfLines(input, "");
    assert "" + input == input;
  }

  /** Within the limit, or one word that cannot be cut. */
  predicate Fits(line: string, max: nat) {
    |line| <= max || IsWord(line)
  }

  lemma {:induction false} JoinedFit(groups: seq<seq<string>>, max: nat)
    requires AllWords(Flat(groups)) && forall k :: 0 <= k < |groups| ==> Allowed(groups[k], max)
    ensures forall k :: 0 <= k < |Joined(groups)| ==> Fits(Joined(groups)[k], max)
    decreases |groups|
  {
    if groups != [] {
      var rest := Flat(groups[1..]);
      assert groups[0][0] == Flat(groups)[0];
      assert forall k :: 0 <= k < |rest| ==> rest[k] == Flat(groups)[|groups[0]| + k];
      JoinedFit(groups[1..], max);
    }
  }

  /** Every line that comes out fits. */
  lemma {:induction false} EveryLineFits(lines: seq<string>, max: nat)
    ensures forall k :: 0 <= k < |Broken(lines, max)| ==> Fits(Broken(lines, max)[k], max)
    decreases |lines|
  {
    if lines != [] {
      EveryLineFits(lines[1..], max);
      if |lines[0]| > max {
        FewestLines(lines[0], max, []);
        WordsAreWords(lines[0], "");
        JoinedFit(Groups(Words(lines[0]), [], max), max);
      }
    }
  }

  function Ended(lines: seq<string>): string {
    if lines == [] then "" else lines[0] + "\n" + Ended(lines[1..])
  }

  /** The lines are the text, with a final newline added when it lacks one. */
  lemma {:induction false} LinesSpellText(s: string, line: string)
    ensures var t := line + s;
            Ended(Lines(s, line)) == t + (if t == "" || (s != "" && s[|s| - 1] == '\n') then "" else "\n")
    decreases |s|
  {
    if s == "" {
      assert Ended([line]) == line + "\n" + Ended([]);
    } else if s[0] == '\n' {
      LinesSpellText(s[1..], "");
      assert ([line] + Lines(s[1..], ""))[1..] == Lines(s[1..], "");
      assert line + s == line + "\n" + s[1..];
    } else {
      LinesSpellText(s[1..], line + [s[0]]);
      assert (line + [s[0]]) + s[1..] == line + s;
    }
  }

  // ----- Line by line -----

  lemma {:induction false} LinesApart(a: string, b: string, line: string)
    requires if a == "" then line == "" else a[|a| - 1] == '\n'
    ensures Lines(a + b, line) == Lines(a, line) + Lines(b, "")
    decreases |a|
  {
    if a == "" {
      assert a + b == b;
    } else {
      assert (a + b)[0] == a[0] && (a + b)[1..] == a[1..] + b;
      if a[0] == '\n' {
        LinesApart(a[1..], b, "");
        Associative([line], Lines(a[1..], ""), Lines(b, ""));
      } else {
        assert |a| > 1 && a[1..][|a| - 2] == '\n';
        LinesApart(a[1..], b, line + [a[0]]);
      }
    }
  }

  lemma {:induction false} OneLine(s: string, b: string, line: string)
    requires '\n' !in s
    ensures Lines(s + "\n" + b, line) == [line + s] + Lines(b, "")
    decreases |s|
  {
    var t := s + "\n" + b;
    if s == "" {
      assert t[0] == '\n' && t[1..] == b && line + s == line;
    } else {
      assert t[0] == s[0] && t[1..] == s[1..] + "\n" + b;
      OneLine(s[1..], b, line + [s[0]]);
      assert (line + [s[0]]) + s[1..] == line + s;
    }
  }

  lemma {:induction false} BrokenApart(a: seq<string>, b: seq<string>, max: nat)
    ensures Broken(a + b, max) == Broken(a, max) + Broken(b, max)
    decreases |a|
  {
    if a == [] {
      assert a + b == b;
    } else {
      assert (a + b)[0] == a[0] && (a + b)[1..] == a[1..] + b;
      BrokenApart(a[1..], b, max);
      Associative(BrokenLine(a[0], max), Broken(a[1..], max), Broken(b, max));
    }
  }

  /** Wherever it stands in the text, a line within the limit comes out as it is, blanks at
      its ends included; a longer one comes out re-wrapped, between the same lines. */
  lemma ShortLineStays(a: string, line: string, b: string, max: nat)
    requires (a == "" || a[|a| - 1] == '\n') && '\n' !in line
    ensures Broken(Lines(a + (line + "\n" + b), ""), max)
         == Broken(Lines(a, ""), max)
            + ((if |line| <= max then [line] else BrokenLine(line, max)) + Broken(Lines(b, ""), max))
  {
    LinesApart(a, line + "\n" + b, "");
    OneLine(line, b, "");
    assert "" + line == line;
    BrokenApart(Lines(a, ""), [line] + Lines(b, ""), max);
    assert ([line] + Lines(b, ""))[1..] == Lines(b, "");
  }

  /** Every re-wrapped line is full: the first word of the next one would not fit. */
  lemma {:induction false} LinesAreFull(words: seq<string>, current: seq<string>, max: nat)
    ensures var g := Groups(words, current, max);
            && (forall k :: 0 <= k < |g| ==> g[k] != [])
            && (current != [] ==> g != [] && current <= g[0])
            && (current == [] && words != [] ==> g != [] && g[0][0] == words[0])
            && forall k :: 0 <= k < |g| - 1 ==> |Join(" ", g[k] + [g[k + 1][0]])| > max
    decreases |words|
  {
    if words != [] {
      var more := Groups(words[1..], [words[0]], max);
      if |Join(" ", current + [words[0]])| > max {
        LinesAreFull(words[1..], [words[0]], max);
        assert more[0][0] == words[0];
        var g := Started(current) + more;
        forall k | 0 <= k < |g| - 1 ensures |Join(" ", g[k] + [g[k + 1][0]])| > max {
          if current != [] && k > 0 {
            assert g[k] == more[k - 1] && g[k + 1] == more[k];
          }
        }
      } else {
        LinesAreFull(words[1..], current + [words[0]], max);
      }
    }
  }
}
