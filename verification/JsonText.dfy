/**
 JSON strings as the tool-call code writes and measures them: `dump()` of a string
 (section 7 of RFC 8259, escaping only what the library escapes), the reader that
 inverts it, and the brace counter that decides how many `}` a truncated call needs.
 */
module JsonText {
  import opened Text

  const BACKSPACE: char := '\U{0008}'
  const FORM_FEED: char := '\U{000C}'
  const HEX := "0123456789abcdef"
  const REPLACEMENT: char := '\U{FFFD}'

  // ----- Writing strings -----

  function HexEscape(c: char): string
    requires c < ' '
  {
    ['\\', 'u', '0', '0', HEX[c as int / 16], HEX[c as int % 16]]
  }

  function EscapeChar(c: char): (r: string)
    ensures r != ""
  {
    if c == BACKSPACE then "\\b"
    else if c == '\t' then "\\t"
    else if c == '\n' then "\\n"
    else if c == FORM_FEED then "\\f"
    else if c == '\r' then "\\r"
    else if c == '"' then "\\\""
    else if c == '\\' then "\\\\"
    else if c < ' ' then HexEscape(c)
    else [c]
  }

  function Escape(s: string): string {
    if s == "" then "" else EscapeChar(s[0]) + Escape(s[1..])
  }

  function Dump(s: string): string {
    "\"" + Escape(s) + "\""
  }

  /** `escape_json_string_inner`: the dump without its quotes. */
  function EscapeInner(s: string): string {
    var escaped := Dump(s);
    if |escaped| >= 2 && escaped[0] == '"' && escaped[|escaped| - 1] == '"'
    then escaped[1..|escaped| - 1]
    else escaped
  }

  lemma EscapeInnerIsEscape(s: string)
    ensures EscapeInner(s) == Escape(s)
  {
    assert Dump(s)[1..|Dump(s)| - 1] == Escape(s);
  }

  /** Only quotes, backslashes and control characters are escaped, the usual five by a letter. */
  lemma CharsEscaped(c: char)
    ensures c >= ' ' && c != '"' && c != '\\' ==> EscapeChar(c) == [c]
    ensures EscapeChar('"') == "\\\"" && EscapeChar('\\') == "\\\\"
    ensures EscapeChar('\n') == "\\n" && EscapeChar('\r') == "\\r" && EscapeChar('\t') == "\\t"
    ensures EscapeChar('\U{0008}') == "\\b" && EscapeChar('\U{000C}') == "\\f"
    ensures EscapeChar('\U{001B}') == "\\u001b"
  {
  }

  lemma {:induction false} PlainEscaped(s: string)
    requires forall c <- s :: c >= ' ' && c != '"' && c != '\\'
    ensures Escape(s) == s
    decreases s
  {
    if s != "" {
      assert s[0] in s;
      CharsEscaped(s[0]);
      assert forall c <- s[1..] :: c in s;
      PlainEscaped(s[1..]);
      assert s == [s[0]] + s[1..];
    }
  }

  /** Text without them is dumped as it is, between quotes. */
  lemma PlainIsDumped(s: string)
    requires forall c <- s :: c >= ' ' && c != '"' && c != '\\'
    ensures Dump(s) == "\"" + s + "\""
  {
    PlainEscaped(s);
  }

  lemma {:induction false} EscapeAppend(a: string, b: string)
    ensures Escape(a + b) == Escape(a) + Escape(b)
    decreases a
  {
    if a == "" {
      assert a + b == b;
    } else {
      assert (a + b)[0] == a[0] && (a + b)[1..] == a[1..] + b;
      EscapeAppend(a[1..], b);
      assert EscapeChar(a[0]) + (Escape(a[1..]) + Escape(b)) == (EscapeChar(a[0]) + Escape(a[1..])) + Escape(b);
    }
  }

  /** What is escaped of a prefix is a prefix of what is escaped of the whole. */
  lemma EscapeMonotone(a: string, b: string)
    requires a <= b
    ensures Escape(a) <= Escape(b)
  {
    assert b == a + b[|a|..];
    EscapeAppend(a, b[|a|..]);
  }

  // ----- Reading strings back -----

  function HexValue(c: char): (r: Option<nat>)
    ensures r.Some? ==> r.value < 16 && c != '"' && c != '\\'
  {
    if '0' <= c <= '9' then Some(c as int - '0' as int)
    else if 'a' <= c <= 'f' then Some(c as int - 'a' as int + 10)
    else if 'A' <= c <= 'F' then Some(c as int - 'A' as int + 10)
    else None
  }

  /** The code unit of a `\u` escape at the front. */
  function CodeUnit(t: string): (r: Option<nat>)
    ensures r.Some? ==> |t| >= 6 && r.value < 0x10000
  {
    if |t| < 6 || t[0] != '\\' || t[1] != 'u' then None
    else
      var (h3, h2, h1, h0) := (HexValue(t[2]), HexValue(t[3]), HexValue(t[4]), HexValue(t[5]));
      if h3.None? || h2.None? || h1.None? || h0.None? then None
      else Some(4096 * h3.value + 256 * h2.value + 16 * h1.value + h0.value)
  }

  predicate IsSurrogate(code: nat) {
    0xD800 <= code < 0xE000
  }

  /** The second half of a surrogate pair at the front. */
  function LowHalf(t: string): (r: Option<nat>)
    ensures r.Some? ==> |t| >= 6 && 0xDC00 <= r.value < 0xE000
  {
    match CodeUnit(t)
    case None => None
    case Some(code) => if 0xDC00 <= code < 0xE000 then Some(code) else None
  }

  function Joined(high: nat, low: nat): char
    requires 0xD800 <= high < 0xDC00 <= low < 0xE000
  {
    (0x10000 + 0x400 * (high - 0xD800) + (low - 0xDC00)) as char
  }

  /** The character written at the front of string content `t`, and how long it is. Control
      characters must be escaped; half a surrogate pair alone stands for no character. */
  function ReadChar(t: string): (r: Option<(char, nat)>)
    ensures r.Some? ==> 1 <= r.value.1 <= |t|
  {
    if t == "" || t[0] == '"' || t[0] < ' ' then None
    else if t[0] != '\\' then Some((t[0], 1))
    else if |t| < 2 then None
    else
      match t[1]
      case 'b' => Some((BACKSPACE, 2))
      case 't' => Some(('\t', 2))
      case 'n' => Some(('\n', 2))
      case 'f' => Some((FORM_FEED, 2))
      case 'r' => Some(('\r', 2))
      case '"' => Some(('"', 2))
      case '\\' => Some(('\\', 2))
      case '/' => Some(('/', 2))
      case 'u' =>
        (match CodeUnit(t)
         case None => None
         case Some(code) =>
           if !IsSurrogate(code) then Some((code as char, 6))
           else if code < 0xDC00 && LowHalf(t[6..]).Some? then Some((Joined(code, LowHalf(t[6..]).value), 12))
           else Some((REPLACEMENT, 6)))
      case _ => None
  }

  /** A character beyond the basic plane is read from its two halves (section 7 of RFC 8259). */
  lemma PairIsRead(c: char, t: string)
    requires c as int >= 0x10000
    requires CodeUnit(t) == Some(0xD800 + (c as int - 0x10000) / 0x400)
    requires LowHalf(t[6..]) == Some(0xDC00 + (c as int - 0x10000) % 0x400)
    ensures ReadChar(t) == Some((c, 12))
  {
    var i := c as int - 0x10000;
    assert Joined(0xD800 + i / 0x400, 0xDC00 + i % 0x400) as int == c as int;
  }

  /** The content of a string up to its closing quote, and the text after the quote. */
  function ReadString(t: string): (r: Option<(string, string)>)
    ensures r.Some? ==> |r.value.1| < |t|
    decreases |t|
  {
    if t != "" && t[0] == '"' then Some(("", t[1..]))
    else
      match ReadChar(t)
      case None => None
      case Some((c, n)) =>
        match ReadString(t[n..])
        case None => None
        case Some((s, rest)) => Some(([c] + s, rest))
  }

  lemma ReadEscapedChar(c: char, rest: string)
    ensures ReadChar(EscapeChar(c) + rest) == Some((c, |EscapeChar(c)|))
    ensures (EscapeChar(c) + rest)[0] != '"'
  {
    match |EscapeChar(c)|
    case 1 =>
    case 2 => ReadPair(c, rest);
    case _ => ReadHexChar(c, rest);
  }

  lemma ReadPair(c: char, rest: string)
    requires |EscapeChar(c)| == 2
    ensures ReadChar(EscapeChar(c) + rest) == Some((c, 2)) && (EscapeChar(c) + rest)[0] == '\\'
  {
    var e := EscapeChar(c);
    assert (e + rest)[0] == e[0] && (e + rest)[1] == e[1];
  }

  lemma ReadHexChar(c: char, rest: string)
    requires c < ' '
    ensures ReadChar(HexEscape(c) + rest) == Some((c, 6))
  {
    HexDigits(c as int / 16);
    HexDigits(c as int % 16);
  }

  lemma HexDigits(n: nat)
    requires n < 16
    ensures HexValue(HEX[n]) == Some(n)
  {
  }

  lemma {:induction false} ReadStringInvertsEscape(s: string, rest: string)
    ensures ReadString(Escape(s) + "\"" + rest) == Some((s, rest))
  {
    var t := Escape(s) + "\"" + rest;
    if s == "" {
      assert t[1..] == rest;
    } else {
      var e, u := EscapeChar(s[0]), Escape(s[1..]) + "\"" + rest;
      assert t == e + u;
      ReadEscapedChar(s[0], u);
      assert t[|e|..] == u;
      ReadStringInvertsEscape(s[1..], rest);
      assert [s[0]] + s[1..] == s;
    }
  }

  // ----- Counting open braces -----

  datatype Scanner = Scanner(depth: int, inString: bool, escaped: bool)

  const START := Scanner(0, false, false)

  function ScanChar(st: Scanner, c: char): Scanner {
    if st.escaped then st.(escaped := false)
    else if c == '\\' && st.inString then st.(escaped := true)
    else if c == '"' then st.(inString := !st.inString)
    else if !st.inString && c == '{' then st.(depth := st.depth + 1)
    else if !st.inString && c == '}' then st.(depth := st.depth - 1)
    else st
  }

  function Scan(s: string, st: Scanner): Scanner {
    if s == "" then st else Scan(s[1..], ScanChar(st, s[0]))
  }

  function BraceDepth(s: string): int {
    Scan(s, START).depth
  }

  method JsonBraceDepth(s: string) returns (depth: int)
    ensures depth == BraceDepth(s)
  {
    depth := 0;
    var inString, escaped := false, false;
    var i := 0;
    while i < |s|
      invariant 0 <= i <= |s|
      invariant Scan(s[i..], Scanner(depth, inString, escaped)) == Scan(s, START)
    {
      var c := s[i];
      assert s[i..][1..] == s[i + 1..];
      i := i + 1;
      if escaped {
        escaped := false;
        continue;
      }
      if c == '\\' && inString {
        escaped := true;
        continue;
      }
      if c == '"' {
        inString := !inString;
        continue;
      }
      if !inString {
        if c == '{' {
          depth := depth + 1;
        } else if c == '}' {
          depth := depth - 1;
        }
      }
    }
  }

  lemma {:induction false} ScanAppend(a: string, b: string, st: Scanner)
    ensures Scan(a + b, st) == Scan(b, Scan(a, st))
    decreases a
  {
    if a == "" {
      assert a + b == b;
    } else {
      assert (a + b)[0] == a[0] && (a + b)[1..] == a[1..] + b;
      ScanAppend(a[1..], b, ScanChar(st, a[0]));
    }
  }

  /** The counter only shifts with the depth it starts from. */
  lemma {:induction false} ScanShift(s: string, st: Scanner, d: int)
    ensures Scan(s, st.(depth := st.depth + d)) == var r := Scan(s, st); r.(depth := r.depth + d)
    decreases s
  {
    if s != "" {
      assert ScanChar(st.(depth := st.depth + d), s[0]) == var r := ScanChar(st, s[0]); r.(depth := r.depth + d);
      ScanShift(s[1..], ScanChar(st, s[0]), d);
    }
  }

  /** Text that leaves the counter as it found it, outside strings. */
  ghost predicate Closed(s: string) {
    Scan(s, START) == START
  }

  lemma ClosedAnywhere(s: string, d: int)
    requires Closed(s)
    ensures Scan(s, Scanner(d, false, false)) == Scanner(d, false, false)
  {
    ScanShift(s, START, d);
  }

  /** A backslash and the character it escapes. */
  lemma ScanPair(c: char, d: int)
    ensures Scan(['\\', c], Scanner(d, true, false)) == Scanner(d, true, false)
  {
    ScanAppend(['\\'], [c], Scanner(d, true, false));
    assert ['\\'] + [c] == ['\\', c];
  }

  lemma ScanEscapedChar(c: char, d: int)
    ensures Scan(EscapeChar(c), Scanner(d, true, false)) == Scanner(d, true, false)
  {
    var e := EscapeChar(c);
    match |e|
    case 1 =>
    case 2 =>
      assert e == ['\\', e[1]];
      ScanPair(e[1], d);
    case _ => ScanHexChar(c, d);
  }

  lemma ScanHexChar(c: char, d: int)
    requires c < ' '
    ensures Scan(HexEscape(c), Scanner(d, true, false)) == Scanner(d, true, false)
  {
    var hex := ['0', '0', HEX[c as int / 16], HEX[c as int % 16]];
    ScanPair('u', d);
    PlainInString(hex, d);
    ScanAppend(['\\', 'u'], hex, Scanner(d, true, false));
    assert HexEscape(c) == ['\\', 'u'] + hex;
  }

  lemma {:induction false} PlainInString(s: string, d: int)
    requires '"' !in s && '\\' !in s
    ensures Scan(s, Scanner(d, true, false)) == Scanner(d, true, false)
    decreases s
  {
    if s != "" {
      assert s[0] in s;
      PlainInString(s[1..], d);
    }
  }

  /** Escaped content never ends the string it is in, whatever it holds. */
  lemma {:induction false} ScanEscaped(s: string, d: int)
    ensures Scan(Escape(s), Scanner(d, true, false)) == Scanner(d, true, false)
  {
    if s != "" {
      ScanEscapedChar(s[0], d);
      ScanEscaped(s[1..], d);
      ScanAppend(EscapeChar(s[0]), Escape(s[1..]), Scanner(d, true, false));
    }
  }

  lemma DumpClosed(s: string)
    ensures Closed(Dump(s))
  {
    ScanEscaped(s, 0);
    ScanAppend("\"" + Escape(s), "\"", START);
    ScanAppend("\"", Escape(s), START);
    assert Scan("\"", START) == Scanner(0, true, false);
  }

  lemma ClosedAppend(a: string, b: string)
    requires Closed(a) && Closed(b)
    ensures Closed(a + b)
  {
    ScanAppend(a, b, START);
  }

  /** Characters the counter ignores outside strings. */
  lemma {:induction false} PlainClosed(s: string)
    requires '"' !in s && '{' !in s && '}' !in s
    ensures Closed(s)
    decreases s
  {
    if s != "" {
      assert s[0] in s;
      PlainClosed(s[1..]);
    }
  }

  lemma BracesAround(s: string)
    requires Closed(s)
    ensures Closed("{" + s + "}") && Scan("{" + s, START) == Scanner(1, false, false)
  {
    ScanAppend("{", s, START);
    assert Scan("{", START) == Scanner(1, false, false);
    ClosedAnywhere(s, 1);
    ScanAppend("{" + s, "}", START);
    assert Scan("}", Scanner(1, false, false)) == START;
  }
}
