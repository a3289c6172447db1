/**
 A reader of JSON text (RFC 8259): what printed tool-call arguments are measured against.
 */
module JsonReader {
  import opened Text
  import opened JsonText

  /** JSON values; numbers, booleans and null are kept as they are written. */
  datatype Json = Scalar(text: string) | Str(s: string) | Arr(items: seq<Json>) | Obj(members: seq<(string, Json)>)

  // ----- Tokens -----

  predicate IsBlank(c: char) {
    c == ' ' || c == '\t' || c == '\n' || c == '\r'
  }

  function Skip(t: string): (r: string)
    ensures |r| <= |t|
    ensures r == "" || !IsBlank(r[0])
  {
    if t != "" && IsBlank(t[0]) then Skip(t[1..]) else t
  }

  predicate IsScalarChar(c: char) {
    c != '"' && c != ',' && c != ':' && c != '[' && c != ']' && c != '{' && c != '}' && !IsBlank(c)
  }

  function ScalarRun(t: string): (k: nat)
    ensures k <= |t|
    ensures k < |t| ==> !IsScalarChar(t[k])
    ensures forall i :: 0 <= i < k ==> IsScalarChar(t[i])
  {
    if t == "" || !IsScalarChar(t[0]) then 0 else 1 + ScalarRun(t[1..])
  }

  function DigitRun(t: string): (k: nat)
    ensures k <= |t|
  {
    if t == "" || !IsDigit(t[0]) then 0 else 1 + DigitRun(t[1..])
  }

  /** Section 6: an optional sign, digits without a leading zero, a fraction, an exponent. */
  predicate IsNumber(s: string) {
    var t := if s != "" && s[0] == '-' then s[1..] else s;
    var k := DigitRun(t);
    k > 0 && (t[0] == '0' ==> k == 1) && IsFraction(t[k..])
  }

  predicate IsFraction(t: string) {
    if t != "" && t[0] == '.' then DigitRun(t[1..]) > 0 && IsExponent(t[1..][DigitRun(t[1..])..])
    else IsExponent(t)
  }

  predicate IsExponent(t: string) {
    t == "" ||
    ((t[0] == 'e' || t[0] == 'E') &&
     var u := if |t| > 1 && (t[1] == '+' || t[1] == '-') then t[2..] else t[1..];
     DigitRun(u) == |u| > 0)
  }

  /** A number or one of the three literal names, section 3. */
  predicate IsScalar(s: string) {
    && (s == "true" || s == "false" || s == "null" || IsNumber(s))
    && forall k :: 0 <= k < |s| ==> IsScalarChar(s[k])
  }

  // ----- The reader -----

  /** The value at the front of `t` and the text after it, without blanks in between. */
  function ReadValue(t: string): (r: Option<(Json, string)>)
    ensures r.Some? ==> |r.value.1| < |t|
    decreases |t|, 2
  {
    var u := Skip(t);
    match ReadToken(u)
    case None => None
    case Some((v, rest)) => Some((v, Skip(rest)))
  }

  function ReadToken(t: string): (r: Option<(Json, string)>)
    ensures r.Some? ==> |r.value.1| < |t|
    decreases |t|, 1
  {
    if t == "" then None
    else if t[0] == '"' then
      match ReadString(t[1..])
      case None => None
      case Some((s, rest)) => Some((Str(s), rest))
    else if t[0] == '[' then
      var u := Skip(t[1..]);
      if u != "" && u[0] == ']' then Some((Arr([]), u[1..]))
      else
        match ReadItems(u)
        case None => None
        case Some((items, rest)) => Some((Arr(items), rest))
    else if t[0] == '{' then
      var u := Skip(t[1..]);
      if u != "" && u[0] == '}' then Some((Obj([]), u[1..]))
      else
        match ReadMembers(u)
        case None => None
        case Some((members, rest)) => Some((Obj(members), rest))
    else
      var k := ScalarRun(t);
      if IsScalar(t[..k]) then Some((Scalar(t[..k]), t[k..])) else None
  }

  /** The items up to and with the closing bracket. */
  function ReadItems(t: string): (r: Option<(seq<Json>, string)>)
    ensures r.Some? ==> |r.value.1| < |t|
    decreases |t|, 3
  {
    match ReadValue(t)
    case None => None
    case Some((v, rest)) =>
      if rest == "" then None
      else if rest[0] == ']' then Some(([v], rest[1..]))
      else if rest[0] == ',' then
        match ReadItems(rest[1..])
        case None => None
        case Some((more, rest')) => Some(([v] + more, rest'))
      else None
  }

  /** A key, its colon and its value. */
  function ReadMember(t: string): (r: Option<((string, Json), string)>)
    ensures r.Some? ==> |r.value.1| < |t|
    decreases |t|, 3
  {
    var u := Skip(t);
    if u == "" || u[0] != '"' then None
    else
      match ReadString(u[1..])
      case None => None
      case Some((key, t1)) =>
        var t2 := Skip(t1);
        if t2 == "" || t2[0] != ':' then None
        else
          match ReadValue(t2[1..])
          case None => None
          case Some((v, rest)) => Some(((key, v), rest))
  }

  /** The members up to and with the closing brace. */
  function ReadMembers(t: string): (r: Option<(seq<(string, Json)>, string)>)
    ensures r.Some? ==> |r.value.1| < |t|
    decreases |t|, 4
  {
    match ReadMember(t)
    case None => None
    case Some((m, rest)) =>
      if rest == "" then None
      else if rest[0] == '}' then Some(([m], rest[1..]))
      else if rest[0] == ',' then
        match ReadMembers(rest[1..])
        case None => None
        case Some((more, rest')) => Some(([m] + more, rest'))
      else None
  }

  /** One JSON value and nothing else. */
  predicate IsJson(t: string) {
    ReadValue(t).Some? && ReadValue(t).value.1 == ""
  }

  // ----- Reading text piece by piece -----

  /** What may follow a value. */
  predicate Follows(rest: string) {
    rest == "" || rest[0] == ',' || rest[0] == ']' || rest[0] == '}'
  }

  lemma {:induction false} RunEnds(s: string, rest: string)
    requires (forall k :: 0 <= k < |s| ==> IsScalarChar(s[k])) && (rest == "" || !IsScalarChar(rest[0]))
    ensures ScalarRun(s + rest) == |s|
    decreases |s|
  {
    if s == "" {
      assert s + rest == rest;
    } else {
      assert (s + rest)[0] == s[0] && (s + rest)[1..] == s[1..] + rest;
      RunEnds(s[1..], rest);
    }
  }

  lemma ReadScalarValue(s: string, rest: string)
    requires IsScalar(s) && Follows(rest)
    ensures ReadValue(s + rest) == Some((Scalar(s), rest))
  {
    RunEnds(s, rest);
    assert s != "" && (s + rest)[0] == s[0] && IsScalarChar(s[0]);
    assert (s + rest)[..|s|] == s && (s + rest)[|s|..] == rest;
  }

  lemma ReadStringValue(s: string, rest: string)
    requires Follows(rest)
    ensures ReadValue(Dump(s) + rest) == Some((Str(s), rest))
  {
    QuotedThen(Escape(s), rest);
    ReadStringInvertsEscape(s, rest);
  }

  lemma QuotedThen(inner: string, rest: string)
    ensures var t := ("\"" + inner + "\"") + rest; t[0] == '"' && t[1..] == inner + "\"" + rest
  {
  }

  lemma ReadEmpty(open: char, close: char, rest: string)
    requires (open == '[' && close == ']') || (open == '{' && close == '}')
    requires Follows(rest)
    ensures ReadValue(([open] + "" + [close]) + rest) == Some((if open == '[' then Arr([]) else Obj([]), rest))
  {
    var t := ([open] + "" + [close]) + rest;
    assert t[0] == open && t[1..] == [close] + rest && ([close] + rest)[1..] == rest;
  }

  lemma ItemsAfterBlanks(t: string)
    ensures ReadItems(Skip(t)) == ReadItems(t)
  {
    assert Skip(Skip(t)) == Skip(t);
    assert ReadValue(Skip(t)) == ReadValue(t);
  }

  lemma ReadBracketed(t: string)
    requires t != "" && t[0] == '[' && Skip(t[1..]) != "" && Skip(t[1..])[0] != ']'
    ensures ReadValue(t)
         == match ReadItems(Skip(t[1..]))
            case None => None
            case Some((items, rest')) => Some((Arr(items), Skip(rest')))
  {
  }

  /** Items between brackets. */
  lemma ReadArray(inner: string, rest: string)
    requires Skip(inner) != "" && Skip(inner)[0] != ']' && Follows(rest)
    ensures ReadValue(("[" + inner + "]") + rest)
         == match ReadItems(inner + ("]" + rest))
            case None => None
            case Some((items, rest')) => Some((Arr(items), Skip(rest')))
  {
    ArrayFront(inner, rest);
    ReadBracketed(("[" + inner + "]") + rest);
    ItemsAfterBlanks(inner + ("]" + rest));
  }

  lemma BracketedThen(inner: string, rest: string)
    ensures var t := ("[" + inner + "]") + rest; t[0] == '[' && t[1..] == inner + ("]" + rest)
  {
  }

  lemma ArrayFront(inner: string, rest: string)
    requires Skip(inner) != "" && Skip(inner)[0] != ']'
    ensures var t, u := ("[" + inner + "]") + rest, inner + ("]" + rest);
            t[0] == '[' && t[1..] == u && Skip(u) != "" && Skip(u)[0] != ']'
  {
    BracketedThen(inner, rest);
    SkipMore(inner, "]" + rest);
    FirstOut(Skip(inner), "]" + rest);
  }

  /** Members between braces. */
  lemma ReadObject(inner: string, rest: string)
    requires inner != "" && !IsBlank(inner[0]) && inner[0] != '}' && Follows(rest)
    ensures ReadValue(("{" + inner + "}") + rest)
         == match ReadMembers(inner + ("}" + rest))
            case None => None
            case Some((members, rest')) => Some((Obj(members), Skip(rest')))
  {
    var t := ("{" + inner + "}") + rest;
    assert t[0] == '{' && t[1..] == inner + ("}" + rest);
  }

  /** The last item, with `close` and what follows behind it. */
  lemma LastItem(v: string, m: Json, rest: string)
    requires ReadValue(v + ("]" + rest)) == Some((m, "]" + rest))
    ensures ReadItems(v + ("]" + rest)) == Some(([m], rest))
  {
    assert ("]" + rest)[1..] == rest;
  }

  /** An item in front of others, given by what is read behind its comma. */
  lemma NextItem(v: string, m: Json, tail: string)
    requires ReadValue(v + ("," + tail)) == Some((m, "," + tail))
    ensures ReadItems(v + ("," + tail))
         == match ReadItems(tail)
            case None => None
            case Some((more, rest)) => Some(([m] + more, rest))
  {
    assert ("," + tail)[1..] == tail;
  }

  lemma ReadKey(k: string, rest: string)
    ensures var t := (Dump(k) + ":") + rest;
            t != "" && t[0] == '"' && ReadString(t[1..]) == Some((k, ":" + rest))
  {
    QuotedThen(Escape(k), ":" + rest);
    assert (Dump(k) + ":") + rest == Dump(k) + (":" + rest);
    ReadStringInvertsEscape(k, ":" + rest);
  }

  /** A dumped key with a colon, and whatever stands behind it. */
  lemma ReadKeyed(k: string, rest: string)
    ensures ReadMember((Dump(k) + ":") + rest)
         == match ReadValue(rest)
            case None => None
            case Some((v, rest')) => Some(((k, v), rest'))
  {
    ReadKey(k, rest);
    assert (":" + rest)[1..] == rest;
  }

  lemma LastMember(t: string, m: (string, Json), rest: string)
    requires ReadMember(t) == Some((m, "}" + rest))
    ensures ReadMembers(t) == Some(([m], rest))
  {
    assert ("}" + rest)[1..] == rest;
  }

  lemma NextMember(t: string, m: (string, Json), tail: string)
    requires ReadMember(t) == Some((m, "," + tail))
    ensures ReadMembers(t)
         == match ReadMembers(tail)
            case None => None
            case Some((more, rest)) => Some(([m] + more, rest))
  {
    assert ("," + tail)[1..] == tail;
  }

  // ----- A JSON value inside other text -----

  lemma CodeUnitMore(t: string, rest: string)
    requires |t| >= 6
    ensures CodeUnit(t + rest) == CodeUnit(t)
  {
    assert (t + rest)[..6] == t[..6];
    forall i | 0 <= i < 6 ensures (t + rest)[i] == t[i] {
      assert (t + rest)[..6][i] == t[..6][i];
    }
  }

  /** In a string that ends, what follows the string does not change how half a surrogate
      pair is read. */
  lemma LowHalfMore(t: string, rest: string)
    requires ReadString(t).Some?
    ensures LowHalf(t + rest) == LowHalf(t)
  {
    if |t| >= 6 {
      CodeUnitMore(t, rest);
    } else {
      assert (t + rest)[0] == t[0];
      if t[0] == '\\' {
        assert (t + rest)[1] == t[1];
      }
    }
  }

  lemma ReadCharMore(t: string, rest: string)
    requires ReadString(t).Some? && t[0] != '"'
    ensures ReadChar(t).Some? && ReadChar(t + rest) == ReadChar(t)
  {
    var u := t + rest;
    assert u[0] == t[0];
    if t[0] == '\\' {
      assert u[1] == t[1];
      if t[1] == 'u' {
        CodeUnitMore(t, rest);
        if IsSurrogate(CodeUnit(t).value) {
          HalfMore(t, rest);
        }
      }
    }
  }

  lemma HalfMore(t: string, rest: string)
    requires ReadString(t).Some? && CodeUnit(t).Some? && IsSurrogate(CodeUnit(t).value)
    ensures LowHalf((t + rest)[6..]) == LowHalf(t[6..])
  {
    assert (t + rest)[6..] == t[6..] + rest;
    if LowHalf(t[6..]).None? || CodeUnit(t).value >= 0xDC00 {
      LowHalfMore(t[6..], rest);
    } else {
      CodeUnitMore(t[6..], rest);
    }
  }

  lemma {:induction false} ReadStringMore(t: string, rest: string)
    requires ReadString(t).Some?
    ensures ReadString(t + rest) == var (s, r) := ReadString(t).value; Some((s, r + rest))
    decreases |t|
  {
    assert (t + rest)[0] == t[0];
    if t[0] == '"' {
      assert (t + rest)[1..] == t[1..] + rest;
    } else {
      var (_, n) := ReadChar(t).value;
      ReadCharMore(t, rest);
      assert (t + rest)[n..] == t[n..] + rest;
      ReadStringMore(t[n..], rest);
    }
  }

  lemma {:induction false} SkipMore(t: string, rest: string)
    ensures Skip(t + rest) == if Skip(t) == "" then Skip(rest) else Skip(t) + rest
    decreases |t|
  {
    if t == "" {
      assert t + rest == rest;
    } else {
      assert (t + rest)[0] == t[0] && (t + rest)[1..] == t[1..] + rest;
      if IsBlank(t[0]) {
        SkipMore(t[1..], rest);
      }
    }
  }

  lemma FirstOut(u: string, rest: string)
    requires u != ""
    ensures u + rest != "" && (u + rest)[0] == u[0] && (u + rest)[1..] == u[1..] + rest
  {
  }

  lemma ScalarMore(t: string, rest: string)
    requires ScalarRun(t) < |t| || Follows(rest)
    ensures var k := ScalarRun(t);
            ScalarRun(t + rest) == k && (t + rest)[..k] == t[..k] && (t + rest)[k..] == t[k..] + rest
  {
    var k := ScalarRun(t);
    assert t[..k] + (t[k..] + rest) == t + rest;
    RunEnds(t[..k], t[k..] + rest);
  }

  /** A value is read alike whatever text follows it. */
  lemma {:induction false} ReadValueMore(t: string, rest: string)
    requires ReadValue(t).Some? && Follows(rest)
    ensures ReadValue(t + rest) == var (v, r) := ReadValue(t).value; Some((v, r + rest))
    decreases |t|, 2
  {
    var u := Skip(t);
    SkipMore(t, rest);
    ReadTokenMore(u, rest);
    var (_, r) := ReadToken(u).value;
    SkipMore(r, rest);
    assert Skip(rest) == rest == "" + rest;
  }

  lemma {:induction false} ReadTokenMore(t: string, rest: string)
    requires ReadToken(t).Some? && Follows(rest)
    ensures ReadToken(t + rest) == var (v, r) := ReadToken(t).value; Some((v, r + rest))
    decreases |t|, 1
  {
    FirstOut(t, rest);
    if t[0] == '"' {
      ReadStringMore(t[1..], rest);
    } else if t[0] == '[' || t[0] == '{' {
      var u := Skip(t[1..]);
      SkipMore(t[1..], rest);
      FirstOut(u, rest);
      if t[0] == '[' && u[0] != ']' {
        ReadItemsMore(u, rest);
      } else if t[0] == '{' && u[0] != '}' {
        ReadMembersMore(u, rest);
      }
    } else {
      ScalarMore(t, rest);
    }
  }

  lemma {:induction false} ReadItemsMore(t: string, rest: string)
    requires ReadItems(t).Some? && Follows(rest)
    ensures ReadItems(t + rest) == var (v, r) := ReadItems(t).value; Some((v, r + rest))
    decreases |t|, 3
  {
    ReadValueMore(t, rest);
    var (_, r) := ReadValue(t).value;
    FirstOut(r, rest);
    if r[0] == ',' {
      ReadItemsMore(r[1..], rest);
    }
  }

  lemma {:induction false} ReadMemberMore(t: string, rest: string)
    requires ReadMember(t).Some? && Follows(rest)
    ensures ReadMember(t + rest) == var (v, r) := ReadMember(t).value; Some((v, r + rest))
    decreases |t|, 3
  {
    var u := Skip(t);
    SkipMore(t, rest);
    FirstOut(u, rest);
    ReadStringMore(u[1..], rest);
    var (_, t1) := ReadString(u[1..]).value;
    SkipMore(t1, rest);
    FirstOut(Skip(t1), rest);
    ReadValueMore(Skip(t1)[1..], rest);
  }

  lemma {:induction false} ReadMembersMore(t: string, rest: string)
    requires ReadMembers(t).Some? && Follows(rest)
    ensures ReadMembers(t + rest) == var (v, r) := ReadMembers(t).value; Some((v, r + rest))
    decreases |t|, 4
  {
    ReadMemberMore(t, rest);
    var (_, r) := ReadMember(t).value;
    FirstOut(r, rest);
    if r[0] == ',' {
      ReadMembersMore(r[1..], rest);
    }
  }
}
