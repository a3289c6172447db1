/**
 Reading a process listing: a row for each line of three whole numbers, other lines skipped.
 */
module ProcessRows {
  import opened Text

  datatype Row = Row(pid: int, parent: int, rss: int)

  // ----- Lines and words -----

  /** Where `splitlines` ends a line. A carriage return and newline end it once, which
      makes no difference here: an empty line is no row. */
  predicate EndsLine(c: char) {
    '\n' <= c <= '\r' || '\U{001C}' <= c <= '\U{001E}'
  }

  function LinesFrom(text: string, line: string): seq<string>
    decreases |text|
  {
    if text == "" then [line]
    else if EndsLine(text[0]) then [line] + LinesFrom(text[1..], "")
    else LinesFrom(text[1..], line + [text[0]])
  }

  // ----- Whole numbers -----

  function DigitValue(c: char): nat
    requires IsDigit(c)
  {
    c as int - '0' as int
  }

  /** Digits with single underscores between them, behind digits worth `acc`; `digit` says
      whether a digit stands just before. */
  function Digits(t: string, acc: nat, digit: bool): Option<nat>
    decreases |t|
  {
    if t == "" then if digit then Some(acc) else None
    else if IsDigit(t[0]) then Digits(t[1..], 10 * acc + DigitValue(t[0]), true)
    else if t[0] == '_' && digit then Digits(t[1..], acc, false)
    else None
  }

  /** `int(word)`. */
  function ReadInt(word: string): Option<int> {
    var signed := word != "" && (word[0] == '-' || word[0] == '+');
    match Digits(if signed then word[1..] else word, 0, false)
    case None => None
    case Some(n) => Some(if signed && word[0] == '-' then -(n as int) else n)
  }

  function RowOf(line: string): Option<Row> {
    var words := WordsBy(line, "", PythonBlanks);
    if |words| != 3 then None
    else
      var (pid, parent, rss) := (ReadInt(words[0]), ReadInt(words[1]), ReadInt(words[2]));
      if pid.None? || parent.None? || rss.None? then None
      else Some(Row(pid.value, parent.value, rss.value))
  }

  /** What a line adds to the rows. */
  function LineRows(line: string): seq<Row> {
    if RowOf(line).Some? then [RowOf(line).value] else []
  }

  function RowsOf(text: string): seq<Row> {
    FlatMap(LinesFrom(text, ""), LineRows)
  }

  method ParseRows(text: string) returns (rows: seq<Row>)
    ensures rows == RowsOf(text)
  {
    rows := [];
    var lines := LinesFrom(text, "");
    assert lines[0..] == lines;
    for i := 0 to |lines|
      invariant rows + FlatMap(lines[i..], LineRows) == RowsOf(text)
    {
      ghost var before := rows;
      var row := RowOf(lines[i]);
      if row.Some? {
        rows := rows + [row.value];
      }
      NextLine(before, lines, i);
      assert rows == before + LineRows(lines[i]);
    }
    assert lines[|lines|..] == [];
  }

  lemma NextLine(rows: seq<Row>, lines: seq<string>, i: nat)
    requires i < |lines|
    ensures rows + FlatMap(lines[i..], LineRows) == (rows + LineRows(lines[i])) + FlatMap(lines[i + 1..], LineRows)
  {
    assert lines[i..][0] == lines[i] && lines[i..][1..] == lines[i + 1..];
    Associative(rows, LineRows(lines[i]), FlatMap(lines[i + 1..], LineRows));
  }

  // ----- Lines do not touch each other -----

  lemma {:induction false} LinesAround(a: string, c: char, b: string, line: string)
    requires EndsLine(c)
    ensures LinesFrom(a + [c] + b, line) == LinesFrom(a, line) + LinesFrom(b, "")
    decreases |a|
  {
    var t := a + [c] + b;
    if a == "" {
      assert t[1..] == b;
    } else {
      assert t[0] == a[0] && t[1..] == a[1..] + [c] + b;
      if EndsLine(a[0]) {
        LinesAround(a[1..], c, b, "");
        Associative([line], LinesFrom(a[1..], ""), LinesFrom(b, ""));
      } else {
        LinesAround(a[1..], c, b, line + [a[0]]);
      }
    }
  }

  /** The rows of two texts with a line end between them are those of both: a malformed line
      costs itself and nothing else. */
  lemma RowsAround(a: string, c: char, b: string)
    requires EndsLine(c)
    ensures RowsOf(a + [c] + b) == RowsOf(a) + RowsOf(b)
  {
    LinesAround(a, c, b, "");
    FlatMapAppend(LinesFrom(a, ""), LinesFrom(b, ""), LineRows);
  }

  // ----- What is no row -----

  lemma {:induction false} OnlyDigits(t: string, acc: nat, digit: bool)
    requires Digits(t, acc, digit).Some?
    ensures forall k :: 0 <= k < |t| ==> IsDigit(t[k]) || t[k] == '_'
    ensures t != "" ==> IsDigit(t[|t| - 1])
    ensures !digit ==> t != "" && IsDigit(t[0])
    ensures forall k :: 0 < k < |t| && t[k] == '_' ==> IsDigit(t[k - 1])
    decreases |t|
  {
    if t != "" {
      if IsDigit(t[0]) {
        OnlyDigits(t[1..], 10 * acc + DigitValue(t[0]), true);
      } else {
        OnlyDigits(t[1..], acc, false);
      }
      forall k | 0 < k < |t| && t[k] == '_' ensures IsDigit(t[k - 1]) {
        assert t[k] == t[1..][k - 1];
        assert k > 1 ==> t[k - 1] == t[1..][k - 2];
      }
    }
  }

  /** Only digits make a number, with single underscores between them and at most one sign. */
  lemma NumberHasDigits(word: string)
    requires ReadInt(word).Some?
    ensures word != ""
    ensures var t := if word[0] == '-' || word[0] == '+' then word[1..] else word;
            && t != "" && IsDigit(t[0]) && IsDigit(t[|t| - 1])
            && forall k :: 0 < k < |t| ==> IsDigit(t[k]) || (t[k] == '_' && IsDigit(t[k - 1]))
  {
    var signed := word != "" && (word[0] == '-' || word[0] == '+');
    OnlyDigits(if signed then word[1..] else word, 0, false);
  }

  /** A line is a row only if it holds three whole numbers and nothing else. */
  lemma RowHasThreeNumbers(line: string)
    requires RowOf(line).Some?
    ensures var words := WordsBy(line, "", PythonBlanks);
            && |words| == 3
            && forall k :: 0 <= k < 3 ==> ReadInt(words[k]).Some?
  {
  }

  // ----- Rows are read back -----

  const DIGITS := "0123456789"

  function Decimal(n: nat): string {
    if n < 10 then [DIGITS[n]] else Decimal(n / 10) + [DIGITS[n % 10]]
  }

  function DecimalInt(n: int): string {
    if n < 0 then "-" + Decimal(-n) else Decimal(n)
  }

  lemma DigitIs(d: nat)
    requires d < 10
    ensures IsDigit(DIGITS[d]) && DigitValue(DIGITS[d]) == d
  {
  }

  lemma {:induction false} DecimalDigits(n: nat, t: string)
    ensures Digits(Decimal(n) + t, 0, false) == Digits(t, n, true)
    decreases n
  {
    DigitIs(n % 10);
    if n < 10 {
      assert (Decimal(n) + t)[0] == DIGITS[n] && (Decimal(n) + t)[1..] == t;
    } else {
      var u := [DIGITS[n % 10]] + t;
      Associative(Decimal(n / 10), [DIGITS[n % 10]], t);
      DecimalDigits(n / 10, u);
      assert u[0] == DIGITS[n % 10] && u[1..] == t;
    }
  }

  lemma {:induction false} DecimalChars(n: nat)
    ensures Decimal(n) != "" && forall k :: 0 <= k < |Decimal(n)| ==> IsDigit(Decimal(n)[k])
    decreases n
  {
    DigitIs(n % 10);
    if n >= 10 {
      DecimalChars(n / 10);
    }
  }

  lemma ReadDecimal(n: int)
    ensures ReadInt(DecimalInt(n)) == Some(n)
  {
    var m := if n < 0 then -n else n;
    DecimalDigits(m, "");
    DecimalChars(m);
    assert Decimal(m) + "" == Decimal(m);
    assert ("-" + Decimal(m))[1..] == Decimal(m);
    assert IsDigit(Decimal(m)[0]);
  }

  predicate IsWord(w: string) {
    w != "" && forall k :: 0 <= k < |w| ==> !Separates(w[k], PythonBlanks)
  }

  lemma DecimalIsWord(n: int)
    ensures IsWord(DecimalInt(n))
  {
    DecimalChars(if n < 0 then -n else n);
  }

  /** Spaces and tabs, which pad the columns. */
  predicate Padding(s: string) {
    forall k :: 0 <= k < |s| ==> s[k] == ' ' || s[k] == '\t'
  }

  lemma {:induction false} PaddingIgnored(pad: string, t: string)
    requires Padding(pad)
    ensures WordsBy(pad + t, "", PythonBlanks) == WordsBy(t, "", PythonBlanks)
    decreases |pad|
  {
    if pad == "" {
      assert pad + t == t;
    } else {
      assert (pad + t)[0] == pad[0] && (pad + t)[1..] == pad[1..] + t;
      PaddingIgnored(pad[1..], t);
      assert AsWords("") + WordsBy(pad[1..] + t, "", PythonBlanks) == WordsBy(pad[1..] + t, "", PythonBlanks);
    }
  }

  /** A word ends where padding starts. */
  lemma WordThen(w: string, pad: string, t: string)
    requires IsWord(w) && Padding(pad) && pad != ""
    ensures WordsBy(w + (pad + t), "", PythonBlanks) == [w] + WordsBy(t, "", PythonBlanks)
  {
    assert w + (pad + t) == w + [pad[0]] + (pad[1..] + t);
    WordsAround(w, pad[0], pad[1..] + t, "", PythonBlanks);
    WordsOfRun(w, "", PythonBlanks);
    PaddingIgnored(pad[1..], t);
    assert "" + w == w;
  }

  lemma LastWord(w: string, pad: string)
    requires IsWord(w) && Padding(pad)
    ensures WordsBy(w + pad, "", PythonBlanks) == [w]
  {
    if pad == "" {
      WordsOfRun(w, "", PythonBlanks);
      assert w + pad == w && "" + w == w;
    } else {
      assert w + pad == w + (pad + "");
      WordThen(w, pad, "");
    }
  }

  /** The padding of a line: in front, between the columns and behind. */
  datatype Pads = Pads(front: string, first: string, second: string, back: string)

  predicate Separating(p: Pads) {
    && Padding(p.front) && Padding(p.first) && Padding(p.second) && Padding(p.back)
    && p.first != "" && p.second != ""
  }

  lemma ThreeWords(a: string, b: string, c: string, p: Pads)
    requires IsWord(a) && IsWord(b) && IsWord(c) && Separating(p)
    ensures WordsBy(p.front + (a + (p.first + (b + (p.second + (c + p.back))))), "", PythonBlanks) == [a, b, c]
  {
    PaddingIgnored(p.front, a + (p.first + (b + (p.second + (c + p.back)))));
    WordThen(a, p.first, b + (p.second + (c + p.back)));
    WordThen(b, p.second, c + p.back);
    LastWord(c, p.back);
  }

  /** A row as a listing shows it, its columns padded. */
  function Shown(r: Row, p: Pads): string {
    p.front + (DecimalInt(r.pid) + (p.first + (DecimalInt(r.parent) + (p.second + (DecimalInt(r.rss) + p.back)))))
  }

  lemma ShownIsRead(r: Row, p: Pads)
    requires Separating(p)
    ensures RowOf(Shown(r, p)) == Some(r)
  {
    DecimalIsWord(r.pid);
    DecimalIsWord(r.parent);
    DecimalIsWord(r.rss);
    ThreeWords(DecimalInt(r.pid), DecimalInt(r.parent), DecimalInt(r.rss), p);
    ReadDecimal(r.pid);
    ReadDecimal(r.parent);
    ReadDecimal(r.rss);
  }

  function Listing(rows: seq<Row>, pads: seq<Pads>): string
    requires |rows| == |pads|
  {
    if rows == [] then "" else Shown(rows[0], pads[0]) + ['\n'] + Listing(rows[1..], pads[1..])
  }

  lemma {:induction false} OneLine(s: string, line: string)
    requires forall k :: 0 <= k < |s| ==> !EndsLine(s[k])
    ensures LinesFrom(s, line) == [line + s]
    decreases |s|
  {
    if s == "" {
      assert line + s == line;
    } else {
      OneLine(s[1..], line + [s[0]]);
      assert (line + [s[0]]) + s[1..] == line + s;
    }
  }

  predicate NoLineEnd(s: string) {
    forall k :: 0 <= k < |s| ==> !EndsLine(s[k])
  }

  lemma NoLineEnds(a: string, b: string)
    requires NoLineEnd(a) && NoLineEnd(b)
    ensures NoLineEnd(a + b)
  {
  }

  lemma ShownIsOneLine(r: Row, p: Pads)
    requires Separating(p)
    ensures NoLineEnd(Shown(r, p))
  {
    var a, b, c := DecimalInt(r.pid), DecimalInt(r.parent), DecimalInt(r.rss);
    DecimalIsWord(r.pid);
    DecimalIsWord(r.parent);
    DecimalIsWord(r.rss);
    NoLineEnds(c, p.back);
    NoLineEnds(p.second, c + p.back);
    NoLineEnds(b, p.second + (c + p.back));
    NoLineEnds(p.first, b + (p.second + (c + p.back)));
    NoLineEnds(a, p.first + (b + (p.second + (c + p.back))));
    NoLineEnds(p.front, a + (p.first + (b + (p.second + (c + p.back)))));
  }

  lemma OneLineRows(line: string)
    requires LinesFrom(line, "") == [line]
    ensures RowsOf(line) == LineRows(line)
  {
    assert [line][1..] == [] && FlatMap([], LineRows) == [];
    assert FlatMap([line], LineRows) == LineRows(line) + FlatMap([line][1..], LineRows);
    assert LineRows(line) + [] == LineRows(line);
  }

  lemma ShownRows(r: Row, p: Pads)
    requires Separating(p)
    ensures RowsOf(Shown(r, p)) == [r]
  {
    ShownIsOneLine(r, p);
    ShownIsRead(r, p);
    OneLine(Shown(r, p), "");
    assert "" + Shown(r, p) == Shown(r, p);
    OneLineRows(Shown(r, p));
  }

  /** A listing is read back, however its columns are padded. */
  lemma {:induction false} ListingIsRead(rows: seq<Row>, pads: seq<Pads>)
    requires |rows| == |pads| && forall p <- pads :: Separating(p)
    ensures RowsOf(Listing(rows, pads)) == rows
    decreases |rows|
  {
    if rows == [] {
      assert WordsBy("", "", PythonBlanks) == [];
      OneLineRows("");
    } else {
      ShownRows(rows[0], pads[0]);
      RowsAround(Shown(rows[0], pads[0]), '\n', Listing(rows[1..], pads[1..]));
      ListingIsRead(rows[1..], pads[1..]);
      assert [rows[0]] + rows[1..] == rows;
    }
  }
}
