/** Character classes and sequence facts shared by the text-processing models. */
module Text {
  datatype Option<+T> = None | Some(value: T)

  /** `isspace` in the C locale. */
  predicate IsSpace(c: char) {
    c == ' ' || '\t' <= c <= '\r'
  }

  predicate IsDigit(c: char) {
    '0' <= c <= '9'
  }

  /** `isalnum` in the C locale, or an underscore. */
  predicate IsWordChar(c: char) {
    IsDigit(c) || 'a' <= c <= 'z' || 'A' <= c <= 'Z' || c == '_'
  }

  /** Length of the maximal run of word characters at the front of `s`. */
  function WordRun(s: string): (n: nat)
    ensures n <= |s|
    ensures forall k :: 0 <= k < n ==> IsWordChar(s[k])
    ensures n < |s| ==> !IsWordChar(s[n])
  {
    if s == "" || !IsWordChar(s[0]) then 0 else 1 + WordRun(s[1..])
  }

  /** The two clauses above determine the run. */
  lemma WordRunUnique(s: string, n: nat)
    requires n <= |s|
    requires forall k :: 0 <= k < n ==> IsWordChar(s[k])
    requires n < |s| ==> !IsWordChar(s[n])
    ensures WordRun(s) == n
  {
  }

  lemma Associative<T>(a: seq<T>, b: seq<T>, c: seq<T>)
    ensures (a + b) + c == a + (b + c)
  {
  }

  lemma SplitPrefix<T>(s: seq<T>, k: nat, r: nat)
    requires k <= r <= |s|
    ensures s[..k] + s[k..][..r - k] == s[..r]
  {
  }

  lemma PrefixCancel<T>(a: seq<T>, x: seq<T>, y: seq<T>)
    ensures a + x <= a + y <==> x <= y
  {
    if a + x <= a + y {
      forall i | 0 <= i < |x| ensures |x| <= |y| && x[i] == y[i] {
        assert (a + x)[|a| + i] == (a + y)[|a| + i];
      }
    }
  }

  lemma PrefixOfLonger<T>(a: seq<T>, b: seq<T>, y: seq<T>)
    requires |a| <= |b|
    ensures a <= b + y <==> a == b[..|a|]
  {
    assert (b + y)[..|a|] == b[..|a|];
  }

  /** Texts `parts` with `sep` between neighbours. */
  function Join(sep: string, parts: seq<string>): string {
    if |parts| == 0 then ""
    else if |parts| == 1 then parts[0]
    else parts[0] + sep + Join(sep, parts[1..])
  }

  function FlatMap<A, B>(s: seq<A>, f: A -> seq<B>): seq<B> {
    if s == [] then [] else f(s[0]) + FlatMap(s[1..], f)
  }

  lemma {:induction false} FlatMapAppend<A, B>(a: seq<A>, b: seq<A>, f: A -> seq<B>)
    ensures FlatMap(a + b, f) == FlatMap(a, f) + FlatMap(b, f)
    decreases |a|
  {
    if a == [] {
      assert a + b == b;
    } else {
      assert (a + b)[0] == a[0] && (a + b)[1..] == a[1..] + b;
      FlatMapAppend(a[1..], b, f);
      Associative(f(a[0]), FlatMap(a[1..], f), FlatMap(b, f));
    }
  }

  // ----- Words between blanks -----

  /** What separates words: `isspace` of C or, with the separators that Python adds, `str.split`. */
  datatype Blanks = CBlanks | PythonBlanks

  predicate Separates(c: char, blanks: Blanks) {
    IsSpace(c) || (blanks == PythonBlanks && '\U{001C}' <= c <= '\U{001F}')
  }

  function AsWords(word: string): seq<string> {
    if word == "" then [] else [word]
  }

  /** The words of `s`, when `word` was already read of the first one. */
  function WordsBy(s: string, word: string, blanks: Blanks): seq<string>
    decreases |s|
  {
    if s == "" then AsWords(word)
    else if Separates(s[0], blanks) then AsWords(word) + WordsBy(s[1..], "", blanks)
    else WordsBy(s[1..], word + [s[0]], blanks)
  }

  /** A blank separates the words on its two sides. */
  lemma {:induction false} WordsAround(a: string, c: char, b: string, word: string, blanks: Blanks)
    requires Separates(c, blanks)
    ensures WordsBy(a + [c] + b, word, blanks) == WordsBy(a, word, blanks) + WordsBy(b, "", blanks)
    decreases |a|
  {
    var s := a + [c] + b;
    if a == "" {
      assert s[1..] == b;
    } else {
      assert s[0] == a[0] && s[1..] == a[1..] + [c] + b;
      if Separates(a[0], blanks) {
        WordsAround(a[1..], c, b, "", blanks);
        Associative(AsWords(word), WordsBy(a[1..], "", blanks), WordsBy(b, "", blanks));
      } else {
        WordsAround(a[1..], c, b, word + [a[0]], blanks);
      }
    }
  }

  lemma {:induction false} WordsOfRun(w: string, word: string, blanks: Blanks)
    requires forall k :: 0 <= k < |w| ==> !Separates(w[k], blanks)
    ensures WordsBy(w, word, blanks) == AsWords(word + w)
    decreases |w|
  {
    if w == "" {
      assert word + w == word;
    } else {
      WordsOfRun(w[1..], word + [w[0]], blanks);
      assert (word + [w[0]]) + w[1..] == word + w;
    }
  }
}
