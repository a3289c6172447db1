/**
 Which normalised texts hold JSON strings. The normaliser passes most escape pairs through,
 and JSON refuses some that Python takes: `\'` in a double-quoted string, `\x41`, control
 characters written as they are. The results say exactly which inputs come out right.
 */
module QuoteStrings {
  import opened Text
  import opened QuoteNormalizer

  // ----- A strict JSON reader of the output -----

  /** An escaped single quote inside a double-quoted string. */
  predicate EscapesApostrophe(s: string, q: Option<char>, quotes: set<char>)
    decreases |s|
  {
    s != "" &&
    (|| (q == Some('"') && |s| > 1 && s[0] == '\\' && s[1] == '\'')
     || var (n, _, q') := ReadStep(s, q, quotes); EscapesApostrophe(s[n..], q', quotes))
  }

  /** What a JSON reader sees: `\"` is the only escaped quote it knows (section 7 of RFC
      8259), so `\'` is no character to it. */
  function JsonRead(s: string, q: Option<char>): seq<Event>
    decreases |s|
  {
    if s == "" then []
    else
      var (n, ev, q') := ReadStep(s, q, JSON_QUOTES);
      var seen := if q.Some? && |s| > 1 && s[0] == '\\' && s[1] == '\'' then Esc('\'') else ev;
      [seen] + JsonRead(s[n..], q')
  }

  /** The strict reader and one that takes both quotes differ just where `\'` stands. */
  lemma {:induction false} StrictlyAlike(s: string, q: Option<char>)
    requires q == None || q == Some('"')
    ensures JsonRead(s, q) == Read(s, q, JSON_QUOTES) <==> !EscapesApostrophe(s, q, JSON_QUOTES)
    decreases |s|
  {
    if s != "" {
      var (n, ev, q') := ReadStep(s, q, JSON_QUOTES);
      StrictlyAlike(s[n..], q');
      var a, b := JsonRead(s, q), Read(s, q, JSON_QUOTES);
      assert a[1..] == JsonRead(s[n..], q') && b[1..] == Read(s[n..], q', JSON_QUOTES);
      assert a[0] == b[0] <==> !(q == Some('"') && |s| > 1 && s[0] == '\\' && s[1] == '\'');
      assert a == [a[0]] + a[1..] && b == [b[0]] + b[1..];
    }
  }

  lemma ApostropheStep(s: string, m: Mode)
    requires s != ""
    ensures var (n, out, m') := Token(s, m);
            var t := out + Due(s[n..], m');
            out != "" &&
            ((OpenQuote(JsonMode(m)) == Some('"') && |t| > 1 && t[0] == '\\' && t[1] == '\'')
             <==> (OpenQuote(m) == Some('"') && |s| > 1 && s[0] == '\\' && s[1] == '\''))
  {
    var (n, out, m') := Token(s, m);
    var t := out + Due(s[n..], m');
    SameEvent(s, m);
    if m != Out {
      assert t[0] == out[0];
      assert |out| == 2 ==> t[1] == out[1];
    }
  }

  lemma {:induction false} SameApostrophes(s: string, m: Mode)
    ensures EscapesApostrophe(Due(s, m), OpenQuote(JsonMode(m)), JSON_QUOTES)
       <==> EscapesApostrophe(s, OpenQuote(m), PYTHON_QUOTES)
    decreases |s|
  {
    if s != "" {
      var (n, out, m') := Token(s, m);
      var rest := Due(s[n..], m');
      TokenStep(s, m);
      SameEvent(s, m);
      ApostropheStep(s, m);
      assert (out + rest)[|out|..] == rest;
      SameApostrophes(s[n..], m');
    }
  }

  /** A JSON reader sees in the output what a Python reader sees in the input, words
      renamed, if and only if no double-quoted string of the input escapes a single quote. */
  lemma JsonMeaningPreserved(s: string)
    ensures JsonRead(Normalized(s), None) == RenameWords(Read(s, None, PYTHON_QUOTES))
       <==> !EscapesApostrophe(s, None, PYTHON_QUOTES)
  {
    MeaningPreserved(s);
    StrictlyAlike(Normalized(s), None);
    SameApostrophes(s, Out);
  }

  // ----- Strings of the grammar -----

  predicate IsHex(c: char) {
    IsDigit(c) || 'a' <= c <= 'f' || 'A' <= c <= 'F'
  }

  /** Hexadecimal digits, `k` of them unless the text ends. */
  predicate HexRun(s: string, k: nat) {
    k == 0 || s == "" || (IsHex(s[0]) && HexRun(s[1..], k - 1))
  }

  predicate JsonEscape(c: char) {
    c == '\\' || c == '/' || c == 'b' || c == 'f' || c == 'n' || c == 'r' || c == 't'
  }

  /** What stands at the front of `s`, in a string delimited by `d`, is what section 7 of
      RFC 8259 allows there, once the delimiter's own escape is resolved. */
  predicate AllowedInString(s: string, d: char)
    requires s != ""
  {
    if s[0] == '\\' then
      |s| == 1 || s[1] == '"' || (s[1] == '\'' && d == '\'') || JsonEscape(s[1]) || (s[1] == 'u' && HexRun(s[2..], 4))
    else
      s[0] == d || s[0] >= ' '
  }

  /** All strings of the text, also one that is cut short, hold only what JSON allows. */
  predicate JsonStrings(s: string, q: Option<char>, quotes: set<char>)
    decreases |s|
  {
    s == "" ||
    (&& (q.Some? ==> AllowedInString(s, q.value))
     && var (n, _, q') := ReadStep(s, q, quotes); JsonStrings(s[n..], q', quotes))
  }

  /** In a string, hexadecimal digits are copied and nothing else becomes one. */
  lemma {:induction false} SameHex(s: string, m: Mode, k: nat)
    requires m != Out
    ensures HexRun(Due(s, m), k) <==> HexRun(s, k)
    decreases k
  {
    if s != "" && k > 0 {
      var (n, out, m') := Token(s, m);
      var rest := Due(s[n..], m');
      TokenStep(s, m);
      Reread(s, m);
      assert (out + rest)[0] == out[0];
      assert Due(s, m) == out + rest;
      if IsHex(s[0]) {
        assert out == [s[0]] && n == 1 && m' == m && (out + rest)[1..] == rest;
        SameHex(s[1..], m, k - 1);
      }
    }
  }

  lemma AllowedAlike(s: string, m: Mode)
    requires s != "" && m != Out
    ensures var (n, out, m') := Token(s, m);
            var t := out + Due(s[n..], m');
            t != "" && (AllowedInString(t, '"') <==> AllowedInString(s, OpenQuote(m).value))
  {
    var (n, out, m') := Token(s, m);
    var rest := Due(s[n..], m');
    Reread(s, m);
    assert (out + rest)[0] == out[0];
    if s == "\\" {
      assert rest == "" && out + rest == out;
    } else if |out| == 2 {
      assert (out + rest)[1] == out[1] && (out + rest)[2..] == rest;
      if s[0] == '\\' {
        SameHex(s[2..], m, 4);
      }
    }
  }

  lemma {:induction false} JsonStringsFrom(s: string, m: Mode)
    ensures JsonStrings(Due(s, m), OpenQuote(JsonMode(m)), JSON_QUOTES) <==> JsonStrings(s, OpenQuote(m), PYTHON_QUOTES)
    decreases |s|
  {
    if s != "" {
      var (n, out, m') := Token(s, m);
      var rest := Due(s[n..], m');
      TokenStep(s, m);
      SameEvent(s, m);
      if m != Out {
        AllowedAlike(s, m);
      }
      assert (out + rest)[|out|..] == rest;
      JsonStringsFrom(s[n..], m');
    }
  }

  /** The strings of the output are JSON strings if and only if those of the input hold no
      escape pair that JSON lacks (`\'` counts only in double quotes) and no control
      character. */
  lemma OutputStringsAreJson(s: string)
    ensures JsonStrings(Normalized(s), None, JSON_QUOTES) <==> JsonStrings(s, None, PYTHON_QUOTES)
  {
    JsonStringsFrom(s, Out);
  }

  /** The output for `"\'"` is no JSON. */
  lemma EscapedApostropheIsNoJson()
    ensures !JsonStrings(Normalized("\"\\'\""), None, JSON_QUOTES)
  {
    var s := "\"\\'\"";
    assert s[1..] == "\\'\"" && ReadStep(s, None, PYTHON_QUOTES) == (1, Open, Some('"'));
    assert !AllowedInString("\\'\"", '"');
    OutputStringsAreJson(s);
  }
}
