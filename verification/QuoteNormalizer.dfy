/**
 Rewriting Python literals as JSON while a model streams its output.

 `Norm` specifies the transducer; `Normalize` is the loop. The results are about the
 whole text: a second pass changes nothing, the JSON reading of the output is the
 Python reading of the input with only True/False/None renamed, and a cut of the
 input is safe for streaming exactly when `SafeCut` says so.
 */
module QuoteNormalizer {
  import opened Text

  datatype Mode = Out | Single | Double

  const LITERALS: seq<(string, string)> := [("True", "true"), ("False", "false"), ("None", "null")]

  predicate IsLiteralPrefix(w: string) {
    w <= "True" || w <= "False" || w <= "None"
  }

  function ConvertWord(w: string): string {
    if w <= "True" then "true"[..|w|]
    else if w <= "False" then "false"[..|w|]
    else if w <= "None" then "null"[..|w|]
    else w
  }

  predicate StartsLiteral(c: char) {
    c == 'T' || c == 'F' || c == 'N'
  }

  /** One iteration of the loop at the front of the unread input `s`: how many characters
      it reads, what it writes and the mode after it. `pw` says whether the character
      read just before `s` is a word character. */
  function Step(s: string, m: Mode, pw: bool): (t: (nat, string, Mode))
    requires s != ""
    ensures 1 <= t.0 <= |s|
  {
    var c := s[0];
    if c == '\\' && |s| > 1 then
      if m == Out then (1, [c], m)
      else (2, if m == Single && s[1] == '\'' then "'" else [c, s[1]], m)
    else if c == '"' then
      if m == Single then (1, "\\\"", m) else (1, [c], if m == Out then Double else Out)
    else if c == '\'' then
      if m == Double then (1, [c], m) else (1, "\"", if m == Out then Single else Out)
    else if m == Out && StartsLiteral(c) && !pw && IsLiteralPrefix(s[..WordRun(s)]) then
      (WordRun(s), ConvertWord(s[..WordRun(s)]), m)
    else
      (1, [c], m)
  }

  /** What remains to be written for the unread input `s`. */
  function Norm(s: string, m: Mode, pw: bool): string
    decreases |s|
  {
    if s == "" then ""
    else
      var (n, out, m') := Step(s, m, pw);
      out + Norm(s[n..], m', IsWordChar(s[n - 1]))
  }

  function Normalized(s: string): string {
    Norm(s, Out, false)
  }

  /** The table search of the literal branch: the first literal that `token` begins. */
  method MatchLiteral(token: string) returns (r: Option<string>)
    requires token != ""
    ensures r == if IsLiteralPrefix(token) then Some(ConvertWord(token)) else None
  {
    var n, k := |token|, 0;
    while k < |LITERALS|
      invariant 0 <= k <= |LITERALS|
      invariant forall j :: 0 <= j < k ==> !(token <= LITERALS[j].0)
    {
      var (py, js) := LITERALS[k];
      if n <= |py| && py[..n] == token {
        LiteralsDisjoint(token);
        return Some(js[..n]);
      }
      k := k + 1;
    }
    assert LITERALS[0].0 == "True" && LITERALS[1].0 == "False" && LITERALS[2].0 == "None";
    return None;
  }

  /** Length of the word that starts at `i`. */
  method ScanWord(input: string, i: nat) returns (n: nat)
    requires i < |input|
    ensures n == WordRun(input[i..])
    ensures i + n <= |input| && input[i..i + n] == input[i..][..n]
  {
    n := 0;
    while i + n < |input| && IsWordChar(input[i + n])
      invariant n <= |input| - i
      invariant forall k :: 0 <= k < n ==> IsWordChar(input[i..][k])
    {
      n := n + 1;
    }
    WordRunUnique(input[i..], n);
  }

  /** The body of the loop: one character, one escape pair or one literal. */
  method ReadOne(input: string, i: nat, inSingle: bool, inDouble: bool)
    returns (n: nat, out: string, single: bool, double: bool)
    requires i < |input| && !(inSingle && inDouble)
    ensures !(single && double) && 0 < n && i + n <= |input|
    ensures Step(input[i..], ModeOf(inSingle, inDouble), WordBefore(input, i)) == (n, out, ModeOf(single, double))
  {
    single, double := inSingle, inDouble;
    var c := input[i];
    if c == '\\' && i + 1 < |input| {
      var next := input[i + 1];
      if inSingle {
        if next == '\'' {
          out := "'";
          n := 2;
        } else if next == '"' {
          out := "\\\"";
          n := 2;
        } else {
          out := [c, next];
          n := 2;
        }
      } else if inDouble {
        out := [c, next];
        n := 2;
      } else {
        out := [c];
        n := 1;
      }
    } else if c == '"' {
      if inSingle {
        out := "\\\"";
      } else {
        double := !inDouble;
        out := [c];
      }
      n := 1;
    } else if c == '\'' {
      if inDouble {
        out := [c];
      } else if inSingle {
        single := false;
        out := "\"";
      } else {
        single := true;
        out := "\"";
      }
      n := 1;
    } else if !inSingle && !inDouble && StartsLiteral(c) && !WordBefore(input, i) {
      var k := ScanWord(input, i);
      var literal := MatchLiteral(input[i..i + k]);
      if literal.Some? {
        out := literal.value;
        n := k;
      } else {
        out := [c];
        n := 1;
      }
    } else {
      out := [c];
      n := 1;
    }
  }

  method Normalize(input: string) returns (result: string)
    ensures result == Normalized(input)
  {
    result := "";
    var inSingle, inDouble := false, false;
    var i := 0;
    NothingRead(input);
    while i < |input|
      invariant 0 <= i <= |input|
      invariant !(inSingle && inDouble)
      invariant Progress(input, i, ModeOf(inSingle, inDouble), result)
    {
      ghost var i0, m := i, ModeOf(inSingle, inDouble);
      var n, out;
      n, out, inSingle, inDouble := ReadOne(input, i, inSingle, inDouble);
      i := i + n;
      StepKeepsProgress(input, i0, m, result, i, ModeOf(inSingle, inDouble), out);
      result := result + out;
    }
    AllRead(input, ModeOf(inSingle, inDouble), result);
  }

  lemma NothingRead(input: string)
    ensures Progress(input, 0, Out, "")
  {
    assert input[0..] == input && "" + Normalized(input) == Normalized(input);
  }

  lemma AllRead(input: string, m: Mode, result: string)
    requires Progress(input, |input|, m, result)
    ensures result == Normalized(input)
  {
    assert input[|input|..] == "" && result + "" == result;
  }

  /** The loop invariant: `result` and what is still due make up the whole output. */
  ghost predicate Progress(input: string, i: nat, m: Mode, result: string)
    requires i <= |input|
  {
    result + Norm(input[i..], m, WordBefore(input, i)) == Normalized(input)
  }

  lemma StepKeepsProgress(input: string, i: nat, m: Mode, before: string, i': nat, m': Mode, out: string)
    requires i < i' <= |input|
    requires Progress(input, i, m, before)
    requires Step(input[i..], m, WordBefore(input, i)) == (i' - i, out, m')
    ensures Progress(input, i', m', before + out)
  {
    var s := input[i..];
    NormStep(s, m, WordBefore(input, i), i' - i, out, m');
    assert s[i' - i..] == input[i'..];
    assert s[i' - i - 1] == input[i' - 1];
    Associative(before, out, Norm(input[i'..], m', WordBefore(input, i')));
  }

  predicate WordBefore(input: string, i: nat)
    requires i <= |input|
  {
    i > 0 && IsWordChar(input[i - 1])
  }

  function ModeOf(inSingle: bool, inDouble: bool): Mode {
    if inSingle then Single else if inDouble then Double else Out
  }

  lemma LiteralsDisjoint(w: string)
    requires |w| > 0
    ensures w <= "True" ==> w[0] == 'T'
    ensures w <= "False" ==> w[0] == 'F'
    ensures w <= "None" ==> w[0] == 'N'
  {
  }

  // ----- Reading whole tokens: words, escape pairs, single characters -----

  /** The output due at a place where no unquoted word is being read. */
  function Due(s: string, m: Mode): string {
    Norm(s, m, false)
  }

  function Token(s: string, m: Mode): (t: (nat, string, Mode))
    requires s != ""
    ensures 1 <= t.0 <= |s|
  {
    if m == Out && IsWordChar(s[0]) then (WordRun(s), ConvertWord(s[..WordRun(s)]), m)
    else Step(s, m, false)
  }

  lemma BoundaryIgnoresPrevious(s: string, m: Mode, pw: bool)
    requires m != Out || s == "" || !IsWordChar(s[0])
    ensures Norm(s, m, pw) == Due(s, m)
  {
  }

  lemma NormStep(s: string, m: Mode, pw: bool, n: nat, out: string, m': Mode)
    requires s != "" && Step(s, m, pw) == (n, out, m')
    ensures Norm(s, m, pw) == out + Norm(s[n..], m', IsWordChar(s[n - 1]))
  {
  }

  lemma WordCharCopied(s: string)
    requires s != "" && IsWordChar(s[0])
    ensures Step(s, Out, true) == (1, [s[0]], Out)
  {
  }

  lemma WordRunTail(s: string)
    requires s != "" && IsWordChar(s[0])
    ensures var r, t := WordRun(s), s[1..];
            r == 1 + WordRun(t) && s[..r] == [s[0]] + t[..r - 1] && s[r..] == t[r - 1..]
  {
    HeadAndTail(s, WordRun(s));
  }

  lemma HeadAndTail(s: string, r: nat)
    requires 0 < r <= |s|
    ensures s[..r] == [s[0]] + s[1..][..r - 1] && s[r..] == s[1..][r - 1..]
  {
  }

  /** Inside a word no literal starts, so the rest of the word is copied. */
  lemma {:induction false} RestOfWordCopied(s: string)
    ensures Norm(s, Out, true) == s[..WordRun(s)] + Due(s[WordRun(s)..], Out)
  {
    var r := WordRun(s);
    if r == 0 {
      assert s[..0] + Due(s[0..], Out) == Due(s[0..], Out) && s[0..] == s;
      BoundaryIgnoresPrevious(s, Out, true);
    } else {
      WordCharCopied(s);
      NormStep(s, Out, true, 1, [s[0]], Out);
      WordRunTail(s);
      RestOfWordCopied(s[1..]);
      Associative([s[0]], s[1..][..r - 1], Due(s[r..], Out));
    }
  }

  lemma NotLiteral(w: string)
    requires w != "" && !(StartsLiteral(w[0]) && IsLiteralPrefix(w))
    ensures !IsLiteralPrefix(w) && ConvertWord(w) == w
  {
    LiteralsDisjoint(w);
  }

  lemma PlainWordStep(s: string)
    requires s != "" && IsWordChar(s[0])
    requires Step(s, Out, false) == (1, [s[0]], Out)
    ensures Due(s, Out) == s[..WordRun(s)] + Due(s[WordRun(s)..], Out)
  {
    NormStep(s, Out, false, 1, [s[0]], Out);
    WordRunTail(s);
    RestOfWordCopied(s[1..]);
    Associative([s[0]], s[1..][..WordRun(s) - 1], Due(s[WordRun(s)..], Out));
  }

  lemma LiteralStep(s: string)
    requires s != "" && IsWordChar(s[0]) && StartsLiteral(s[0]) && IsLiteralPrefix(s[..WordRun(s)])
    ensures Due(s, Out) == ConvertWord(s[..WordRun(s)]) + Due(s[WordRun(s)..], Out)
  {
    var r := WordRun(s);
    NormStep(s, Out, false, r, ConvertWord(s[..r]), Out);
    BoundaryIgnoresPrevious(s[r..], Out, IsWordChar(s[r - 1]));
  }

  lemma WordStep(s: string)
    requires s != "" && IsWordChar(s[0])
    ensures Due(s, Out) == ConvertWord(s[..WordRun(s)]) + Due(s[WordRun(s)..], Out)
  {
    var r := WordRun(s);
    if StartsLiteral(s[0]) && IsLiteralPrefix(s[..r]) {
      LiteralStep(s);
    } else {
      NotLiteral(s[..r]);
      NoLiteralAhead(s);
      PlainWordStep(s);
    }
  }

  lemma NoLiteralAhead(s: string)
    requires s != "" && IsWordChar(s[0]) && !(StartsLiteral(s[0]) && IsLiteralPrefix(s[..WordRun(s)]))
    ensures Step(s, Out, false) == (1, [s[0]], Out)
  {
  }

  lemma TokenStep(s: string, m: Mode)
    requires s != ""
    ensures var (n, out, m') := Token(s, m); Due(s, m) == out + Due(s[n..], m')
  {
    if m == Out && IsWordChar(s[0]) {
      WordStep(s);
    } else {
      var (n, out, m') := Step(s, m, false);
      if IsWordChar(s[n - 1]) {
        BoundaryIgnoresPrevious(s[n..], m', true);
      }
    }
  }

  // ----- A second pass changes nothing -----

  /** The mode in which the output of mode `m` is read back. */
  function JsonMode(m: Mode): Mode {
    if m == Out then Out else Double
  }

  lemma ConvertWordIdempotent(w: string)
    requires w != "" && forall c <- w :: IsWordChar(c)
    ensures |ConvertWord(w)| == |w|
    ensures forall c <- ConvertWord(w) :: IsWordChar(c)
    ensures !IsLiteralPrefix(ConvertWord(w))
  {
    LiteralsDisjoint(w);
    var v := ConvertWord(w);
    assert v[0] == if IsLiteralPrefix(w) then (if w[0] == 'T' then 't' else if w[0] == 'F' then 'f' else 'n') else w[0];
    LiteralsDisjoint(v);
  }

  lemma BoundaryStaysBoundary(s: string)
    requires s == "" || !IsWordChar(s[0])
    ensures Due(s, Out) == "" || !IsWordChar(Due(s, Out)[0])
  {
    if s != "" {
      TokenStep(s, Out);
      assert Token(s, Out).1 != "";
    }
  }

  lemma WordThen(w: string, rest: string)
    requires w != "" && forall c <- w :: IsWordChar(c)
    requires rest == "" || !IsWordChar(rest[0])
    ensures WordRun(w + rest) == |w| && (w + rest)[..|w|] == w
  {
    forall k | 0 <= k < |w| ensures IsWordChar((w + rest)[k]) {
      assert w[k] in w;
    }
    WordRunUnique(w + rest, |w|);
  }

  lemma Reread(s: string, m: Mode)
    requires s != ""
    ensures var (n, out, m') := Token(s, m);
            out != "" && Token(out + Due(s[n..], m'), JsonMode(m)) == (|out|, out, JsonMode(m'))
  {
    var (n, _, m') := Token(s, m);
    var rest := Due(s[n..], m');
    if m == Out && IsWordChar(s[0]) {
      BoundaryStaysBoundary(s[n..]);
      WordReread(s, rest);
    } else {
      assert s == "\\" ==> rest == "";
      MarkReread(s, m, rest);
    }
  }

  lemma WordReread(s: string, rest: string)
    requires s != "" && IsWordChar(s[0]) && (rest == "" || !IsWordChar(rest[0]))
    ensures var (_, out, _) := Token(s, Out);
            out != "" && Token(out + rest, Out) == (|out|, out, Out)
  {
    var (n, out, _) := Token(s, Out);
    ConvertWordIdempotent(s[..n]);
    WordThen(out, rest);
    assert IsWordChar((out + rest)[0]) by { assert (out + rest)[0] == out[0] && out[0] in out; }
    assert ConvertWord(out) == out;
  }

  lemma MarkReread(s: string, m: Mode, rest: string)
    requires s != "" && !(m == Out && IsWordChar(s[0])) && (s == "\\" ==> rest == "")
    ensures var (_, out, m') := Token(s, m);
            out != "" && Token(out + rest, JsonMode(m)) == (|out|, out, JsonMode(m'))
  {
    var (_, out, _) := Token(s, m);
    if s == "\\" {
      assert out + rest == out;
    } else {
      assert (out + rest)[0] == out[0];
      if |out| == 2 {
        assert (out + rest)[1] == out[1];
      }
    }
  }

  /** Unquoted, a word that True, False or None begins with becomes as much of true, false
      or null, and any other word stays as it is. */
  lemma WordNormalized(w: string)
    requires forall c <- w :: 'a' <= c <= 'z' || 'A' <= c <= 'Z' || '0' <= c <= '9' || c == '_'
    ensures w <= "True" ==> Normalized(w) == "true"[..|w|]
    ensures w <= "False" ==> Normalized(w) == "false"[..|w|]
    ensures w <= "None" ==> Normalized(w) == "null"[..|w|]
    ensures !(w <= "True") && !(w <= "False") && !(w <= "None") ==> Normalized(w) == w
  {
    if w != "" {
      forall k | 0 <= k < |w| ensures IsWordChar(w[k]) {
        assert w[k] in w;
      }
      WordRunUnique(w, |w|);
      WordStep(w);
      LiteralsDisjoint(w);
      assert w[..|w|] == w && Due(w[|w|..], Out) == "" && ConvertWord(w) + "" == ConvertWord(w);
    }
  }

  /** Each of the three names, cut anywhere. */
  lemma NamesNormalized(k: nat)
    ensures k <= 4 ==> Normalized("True"[..k]) == "true"[..k]
    ensures k <= 5 ==> Normalized("False"[..k]) == "false"[..k]
    ensures k <= 4 ==> Normalized("None"[..k]) == "null"[..k]
  {
    if k <= 4 {
      WordNormalized("True"[..k]);
      WordNormalized("None"[..k]);
    }
    if k <= 5 {
      WordNormalized("False"[..k]);
    }
  }

  lemma NormalizedNonEmpty(s: string)
    requires s != ""
    ensures Normalized(s) != ""
  {
    TokenStep(s, Out);
    Reread(s, Out);
  }

  /** Normalising normalised text changes nothing, for every input. */
  lemma Idempotent(s: string)
    ensures Normalized(Normalized(s)) == Normalized(s)
  {
    IdempotentFrom(s, Out);
  }

  lemma {:induction false} IdempotentFrom(s: string, m: Mode)
    ensures Due(Due(s, m), JsonMode(m)) == Due(s, m)
    decreases |s|
  {
    if s != "" {
      var (n, out, m') := Token(s, m);
      var rest := Due(s[n..], m');
      TokenStep(s, m);
      Reread(s, m);
      TokenStep(out + rest, JsonMode(m));
      assert (out + rest)[|out|..] == rest;
      IdempotentFrom(s[n..], m');
    }
  }

  // ----- The text means the same -----

  /** What a reader of quoted text sees. In a string, `Ch` is a character (possibly
      written as an escaped quote), `Esc` any other escape pair, `Dangling` a final
      lone backslash; outside, words are read whole. */
  datatype Event =
    | Open | Close | Ch(c: char) | Esc(c: char) | Dangling
    | Word(w: string) | Mark(c: char)

  /** One event of a reader for which the characters in `quotes` delimit strings;
      `q` is the delimiter of the string being read. */
  function ReadStep(s: string, q: Option<char>, quotes: set<char>): (t: (nat, Event, Option<char>))
    requires s != ""
    ensures 1 <= t.0 <= |s|
  {
    var c := s[0];
    match q
    case None =>
      if c in quotes then (1, Open, Some(c))
      else if IsWordChar(c) then (WordRun(s), Word(s[..WordRun(s)]), None)
      else (1, Mark(c), None)
    case Some(d) =>
      if c == '\\' then
        if |s| == 1 then (1, Dangling, q)
        else (2, if s[1] == '"' || s[1] == '\'' then Ch(s[1]) else Esc(s[1]), q)
      else if c == d then (1, Close, None)
      else (1, Ch(c), q)
  }

  function Read(s: string, q: Option<char>, quotes: set<char>): seq<Event>
    decreases |s|
  {
    if s == "" then []
    else
      var (n, ev, q') := ReadStep(s, q, quotes);
      [ev] + Read(s[n..], q', quotes)
  }

  const PYTHON_QUOTES: set<char> := {'"', '\''}
  const JSON_QUOTES: set<char> := {'"'}

  /** Python's three names and their beginnings become JSON's; everything else stays. */
  function Renamed(ev: Event): Event {
    match ev
    case Word(w) =>
      if w <= "True" then Word("true"[..|w|])
      else if w <= "False" then Word("false"[..|w|])
      else if w <= "None" then Word("null"[..|w|])
      else ev
    case _ => ev
  }

  function RenameWords(evs: seq<Event>): seq<Event> {
    seq(|evs|, i requires 0 <= i < |evs| => Renamed(evs[i]))
  }

  function OpenQuote(m: Mode): Option<char> {
    match m case Out => None case Single => Some('\'') case Double => Some('"')
  }

  lemma SameWord(s: string)
    requires s != "" && IsWordChar(s[0])
    ensures var (n, out, m') := Token(s, Out);
            && ReadStep(s, None, PYTHON_QUOTES) == (n, Word(s[..n]), None)
            && out != ""
            && ReadStep(out + Due(s[n..], m'), None, JSON_QUOTES) == (|out|, Renamed(Word(s[..n])), None)
  {
    var (n, out, m') := Token(s, Out);
    var rest := Due(s[n..], m');
    ConvertWordIdempotent(s[..n]);
    BoundaryStaysBoundary(s[n..]);
    WordThen(out, rest);
    assert IsWordChar(out[0]) by { assert out[0] in out; }
    assert (out + rest)[0] == out[0];
  }

  /** One step: the JSON reader sees the token's output as the Python reader sees the token. */
  lemma SameEvent(s: string, m: Mode)
    requires s != ""
    ensures var (n, out, m') := Token(s, m);
            var (k, ev, q) := ReadStep(s, OpenQuote(m), PYTHON_QUOTES);
            && k == n && q == OpenQuote(m') && out != ""
            && ReadStep(out + Due(s[n..], m'), OpenQuote(JsonMode(m)), JSON_QUOTES)
               == (|out|, Renamed(ev), OpenQuote(JsonMode(m')))
  {
    var (n, out, m') := Token(s, m);
    var rest := Due(s[n..], m');
    if m == Out && IsWordChar(s[0]) {
      SameWord(s);
    } else if s == "\\" {
      assert rest == "" && out + rest == out;
    } else {
      assert (out + rest)[0] == out[0];
      if |out| == 2 {
        assert (out + rest)[1] == out[1];
      }
    }
  }

  /** Read as JSON, where only double quotes delimit strings, the output shows the very
      strings, marks and words that the input shows when read as Python, closed or not,
      except that True, False, None and their prefixes are renamed. */
  lemma MeaningPreserved(s: string)
    ensures Read(Normalized(s), None, JSON_QUOTES) == RenameWords(Read(s, None, PYTHON_QUOTES))
  {
    MeaningPreservedFrom(s, Out);
  }

  lemma {:induction false} MeaningPreservedFrom(s: string, m: Mode)
    ensures Read(Due(s, m), OpenQuote(JsonMode(m)), JSON_QUOTES) == RenameWords(Read(s, OpenQuote(m), PYTHON_QUOTES))
    decreases |s|
  {
    if s != "" {
      var (n, out, m') := Token(s, m);
      var rest := Due(s[n..], m');
      TokenStep(s, m);
      SameEvent(s, m);
      assert (out + rest)[|out|..] == rest;
      MeaningPreservedFrom(s[n..], m');
    }
  }

  // ----- Streaming -----

  /** Where a character scanner stands after a prefix of the input: outside strings it
      remembers the unquoted word being read, inside strings an open escape. */
  datatype Scan = Outside(word: string) | Inside(quote: char, escaped: bool)

  function ScanChar(st: Scan, c: char): Scan {
    match st
    case Outside(w) =>
      if c == '"' || c == '\'' then Inside(c, false)
      else Outside(if IsWordChar(c) then w + [c] else "")
    case Inside(q, escaped) =>
      if escaped then Inside(q, false)
      else if c == '\\' then Inside(q, true)
      else if c == q then Outside("")
      else st
  }

  function ScanText(s: string, st: Scan): Scan
  {
    if s == "" then st else ScanText(s[1..], ScanChar(st, s[0]))
  }

  /** The input may be cut where `st` stands, with `rest` still to come, unless the cut
      splits `\'` in a single-quoted string or stops inside an unquoted word that looks
      like True, False or None only so far. */
  predicate SafeCut(st: Scan, rest: string) {
    match st
    case Outside(w) => w != "" && IsLiteralPrefix(w) ==> IsLiteralPrefix(w + rest[..WordRun(rest)])
    case Inside(q, escaped) => !(q == '\'' && escaped && rest != "" && rest[0] == '\'')
  }

  function ScanStart(m: Mode): Scan {
    match m case Out => Outside("") case Single => Inside('\'', false) case Double => Inside('"', false)
  }

  /** The output for a prefix of the input is a prefix of the output for the input,
      exactly when the cut is safe. */
  lemma StreamingMonotone(s: string, k: nat)
    requires k <= |s|
    ensures Normalized(s[..k]) <= Normalized(s) <==> SafeCut(ScanText(s[..k], Outside("")), s[k..])
  {
    MonotoneFrom(s, Out, k);
  }

  /** A cut that changes text already streamed: an unfinished word that looked like True
      turns out not to be one. */
  lemma StreamingCanRetract()
    ensures !(Normalized(['T', 'x'][..1]) <= Normalized(['T', 'x']))
  {
    var s := ['T', 'x'];
    StreamingMonotone(s, 1);
    assert s[..1] == ['T'] && s[1..] == ['x'];
    CutInTx();
  }

  lemma CutInTx()
    ensures !SafeCut(ScanText(['T'], Outside("")), ['x'])
  {
    ScanFreshWord(['T']);
    WordRunUnique(['x'], 1);
    assert ['T'] + ['x'][..1] == ['T', 'x'];
    NotAPrefix();
  }

  lemma NotAPrefix()
    ensures IsLiteralPrefix(['T']) && !IsLiteralPrefix(['T', 'x'])
  {
    LiteralsDisjoint(['T', 'x']);
    assert ['T', 'x'][1] != "True"[1];
  }

  lemma {:induction false} ScanAppend(a: string, b: string, st: Scan)
    ensures ScanText(a + b, st) == ScanText(b, ScanText(a, st))
    decreases a
  {
    if a == "" {
      assert a + b == b;
    } else {
      assert (a + b)[1..] == a[1..] + b;
      ScanAppend(a[1..], b, ScanChar(st, a[0]));
    }
  }

  lemma {:induction false} ScanWordText(w: string, v: string)
    requires forall c <- w :: IsWordChar(c)
    ensures ScanText(w, Outside(v)) == Outside(v + w)
    decreases w
  {
    if w == "" {
      assert v + w == v;
    } else {
      assert w[0] in w;
      assert v + w == (v + [w[0]]) + w[1..];
      ScanWordText(w[1..], v + [w[0]]);
    }
  }

  /** After a whole token the scanner is as good as fresh. */
  lemma ScanToken(s: string, m: Mode, k: nat)
    requires s != "" && Token(s, m).0 <= k <= |s|
    ensures var (n, _, m') := Token(s, m);
            SafeCut(ScanText(s[..k], ScanStart(m)), s[k..]) <==> SafeCut(ScanText(s[n..k], ScanStart(m')), s[k..])
  {
    var (n, _, m') := Token(s, m);
    assert s[..k] == s[..n] + s[n..k];
    ScanAppend(s[..n], s[n..k], ScanStart(m));
    if m == Out && IsWordChar(s[0]) {
      ScanWordText(s[..n], "");
      assert "" + s[..n] == s[..n];
      if k == n {
        assert WordRun(s[k..]) == 0;
        assert s[..n] + s[k..][..0] == s[..n];
      }
    } else if n == 2 {
      assert s[..2][1..] == [s[1]] && [s[1]][1..] == "";
      assert ScanText([s[1]], ScanChar(ScanStart(m), s[0])) == ScanChar(ScanChar(ScanStart(m), s[0]), s[1]);
      assert ScanText(s[..2], ScanStart(m)) == ScanChar(ScanChar(ScanStart(m), s[0]), s[1]);
    } else if s == "\\" && m != Out {
      assert s[n..k] == "";
    } else {
      assert ScanText(s[..1], ScanStart(m)) == ScanChar(ScanStart(m), s[0]);
    }
  }

  lemma TokenOfPrefix(s: string, m: Mode, k: nat)
    requires s != "" && Token(s, m).0 <= k <= |s|
    ensures s[..k] != "" && Token(s[..k], m) == Token(s, m)
  {
    var n := Token(s, m).0;
    if m == Out && IsWordChar(s[0]) {
      WordRunUnique(s[..k], n);
      assert s[..k][..n] == s[..n];
    }
  }

  /** A cut inside a word. */
  lemma CutInWord(s: string, k: nat)
    requires 0 < k < WordRun(s)
    ensures Due(s[..k], Out) <= Due(s, Out) <==> SafeCut(ScanText(s[..k], Outside("")), s[k..])
  {
    var r := WordRun(s);
    var v, w := s[..k], s[..r];
    ScannedWord(s, k);
    assert Due(v, Out) == ConvertWord(v) by {
      WordRunUnique(v, k);
      WordStep(v);
      assert v[..k] == v && v[k..] == "";
    }
    WordStep(s);
    ConvertPrefix(v, w);
    PrefixOfLonger(ConvertWord(v), ConvertWord(w), Due(s[r..], Out));
  }

  lemma ScannedWord(s: string, k: nat)
    requires 0 < k < WordRun(s)
    ensures ScanText(s[..k], Outside("")) == Outside(s[..k])
    ensures s[..k] + s[k..][..WordRun(s[k..])] == s[..WordRun(s)]
  {
    ScanFreshWord(s[..k]);
    WordRunUnique(s[k..], WordRun(s) - k);
    SplitPrefix(s, k, WordRun(s));
  }

  lemma ScanFreshWord(w: string)
    requires forall c <- w :: IsWordChar(c)
    ensures ScanText(w, Outside("")) == Outside(w)
  {
    ScanWordText(w, "");
    assert "" + w == w;
  }

  /** A cut inside an escape pair. */
  lemma CutInPair(s: string, m: Mode)
    requires m != Out && |s| > 1 && s[0] == '\\'
    ensures Due(s[..1], m) <= Due(s, m) <==> SafeCut(ScanText(s[..1], ScanStart(m)), s[1..])
  {
    assert s[..1] == "\\";
    TokenStep("\\", m);
    TokenStep(s, m);
    assert Due("\\", m) == "\\";
    assert Due(s, m)[0] == Token(s, m).1[0];
    assert ScanText("\\", ScanStart(m)) == ScanChar(ScanStart(m), '\\');
  }

  lemma ConvertPrefix(v: string, w: string)
    requires v != "" && v <= w
    ensures |ConvertWord(v)| == |v| && |ConvertWord(w)| == |w|
    ensures ConvertWord(v) == ConvertWord(w)[..|v|] <==> (IsLiteralPrefix(v) ==> IsLiteralPrefix(w))
  {
    LiteralsDisjoint(v);
    LiteralsDisjoint(w);
  }

  /** A cut behind the first token is a cut of the rest. */
  lemma CutBehindToken(s: string, m: Mode, k: nat)
    requires s != "" && Token(s, m).0 <= k <= |s|
    requires var (n, _, m') := Token(s, m);
             (Due(s[n..][..k - n], m') <= Due(s[n..], m')
              <==> SafeCut(ScanText(s[n..][..k - n], ScanStart(m')), s[n..][k - n..]))
    ensures Due(s[..k], m) <= Due(s, m) <==> SafeCut(ScanText(s[..k], ScanStart(m)), s[k..])
  {
    var (n, out, m') := Token(s, m);
    TokenStep(s, m);
    TokenOfPrefix(s, m, k);
    TokenStep(s[..k], m);
    assert s[..k][n..] == s[n..][..k - n] == s[n..k];
    assert s[n..][k - n..] == s[k..];
    PrefixCancel(out, Due(s[n..][..k - n], m'), Due(s[n..], m'));
    ScanToken(s, m, k);
  }

  lemma {:induction false} MonotoneFrom(s: string, m: Mode, k: nat)
    requires k <= |s|
    ensures Due(s[..k], m) <= Due(s, m) <==> SafeCut(ScanText(s[..k], ScanStart(m)), s[k..])
    decreases |s|
  {
    if k > 0 {
      var (n, out, m') := Token(s, m);
      if k >= n {
        MonotoneFrom(s[n..], m', k - n);
        CutBehindToken(s, m, k);
      } else if m == Out && IsWordChar(s[0]) {
        CutInWord(s, k);
      } else {
        CutInPair(s, m);
      }
    }
  }

  lemma ShorterWord(s: string, k: nat)
    requires 0 < k < WordRun(s)
    ensures |Due(s[..k], Out)| == k <= |Due(s, Out)|
  {
    var v := s[..k];
    WordRunUnique(v, k);
    WordStep(v);
    assert v[..k] == v && v[k..] == "";
    WordStep(s);
    ConvertPrefix(v, s[..WordRun(s)]);
  }

  lemma ShorterPair(s: string, m: Mode)
    requires m != Out && |s| > 1 && s[0] == '\\'
    ensures |Due(s[..1], m)| <= |Due(s, m)|
  {
    assert s[..1] == "\\";
    TokenStep("\\", m);
    TokenStep(s, m);
    assert Due("\\", m) == "\\";
  }

  lemma ShorterBehindToken(s: string, m: Mode, k: nat)
    requires s != "" && Token(s, m).0 <= k <= |s|
    requires var (n, _, m') := Token(s, m); |Due(s[n..][..k - n], m')| <= |Due(s[n..], m')|
    ensures |Due(s[..k], m)| <= |Due(s, m)|
  {
    var (n, out, m') := Token(s, m);
    TokenStep(s, m);
    TokenOfPrefix(s, m, k);
    TokenStep(s[..k], m);
    assert s[..k][n..] == s[n..][..k - n];
  }

  /** The output for a prefix of the input is never longer. */
  lemma {:induction false} PrefixNoLonger(s: string, m: Mode, k: nat)
    requires k <= |s|
    ensures |Due(s[..k], m)| <= |Due(s, m)|
    decreases |s|
  {
    if k > 0 {
      var (n, _, m') := Token(s, m);
      if k >= n {
        PrefixNoLonger(s[n..], m', k - n);
        ShorterBehindToken(s, m, k);
      } else if m == Out && IsWordChar(s[0]) {
        ShorterWord(s, k);
      } else {
        ShorterPair(s, m);
      }
    }
  }
}
