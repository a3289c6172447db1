/**
 Whatever text the JSON reader accepts, the brace counter of the tool-call code is back
 where it started, outside strings.
 */
module JsonBalance {
  import opened Text
  import opened JsonText
  import opened JsonReader

  const INSIDE := Scanner(0, true, false)

  /** `r` is what is left of `t` behind text that leaves the counter alone. */
  ghost predicate Consumes(t: string, r: string) {
    |r| <= |t| && r == t[|t| - |r|..] && Closed(t[..|t| - |r|])
  }

  /** The same behind one more character, `close`. */
  ghost predicate ConsumesTo(t: string, r: string, close: char) {
    |r| < |t| && r == t[|t| - |r|..] && t[|t| - |r| - 1] == close && Closed(t[..|t| - |r| - 1])
  }

  lemma ConsumesNothing(t: string)
    ensures Consumes(t, t)
  {
  }

  lemma ConsumesThen(t: string, u: string, r: string)
    requires Consumes(t, u) && Consumes(u, r)
    ensures Consumes(t, r)
  {
    var a, b := t[..|t| - |u|], u[..|u| - |r|];
    assert t[..|t| - |r|] == a + b;
    ClosedAppend(a, b);
  }

  lemma ConsumesThenTo(t: string, u: string, r: string, close: char)
    requires Consumes(t, u) && ConsumesTo(u, r, close)
    ensures ConsumesTo(t, r, close)
  {
    var a, b := t[..|t| - |u|], u[..|u| - |r| - 1];
    assert t[..|t| - |r| - 1] == a + b;
    ClosedAppend(a, b);
  }

  lemma ConsumesPlain(t: string, k: nat)
    requires k <= |t| && '"' !in t[..k] && '{' !in t[..k] && '}' !in t[..k]
    ensures Consumes(t, t[k..])
  {
    PlainClosed(t[..k]);
    assert |t| - |t[k..]| == k;
  }

  lemma ConsumesOne(t: string)
    requires t != "" && t[0] != '"' && t[0] != '{' && t[0] != '}'
    ensures Consumes(t, t[1..])
  {
    assert t[..1] == [t[0]];
    ConsumesPlain(t, 1);
  }

  lemma {:induction false} ConsumesBlanks(t: string)
    ensures Consumes(t, Skip(t))
    decreases |t|
  {
    if t != "" && IsBlank(t[0]) {
      ConsumesOne(t);
      ConsumesBlanks(t[1..]);
      ConsumesThen(t, t[1..], Skip(t));
    } else {
      ConsumesNothing(t);
    }
  }

  /** A character of a string, escaped or not, does not end the string. */
  lemma CharStaysInside(t: string)
    requires ReadChar(t).Some?
    ensures Scan(t[..ReadChar(t).value.1], INSIDE) == INSIDE
  {
    var n := ReadChar(t).value.1;
    if n == 1 {
      assert t[..1] == [t[0]];
      PlainInString(t[..1], 0);
    } else if n == 2 {
      assert t[..2] == ['\\', t[1]];
      ScanPair(t[1], 0);
    } else {
      UnitStaysInside(t);
      if n == 12 {
        UnitStaysInside(t[6..]);
        assert t[..12] == t[..6] + t[6..][..6];
        ScanAppend(t[..6], t[6..][..6], INSIDE);
      }
    }
  }

  lemma UnitIsPlain(t: string)
    requires CodeUnit(t).Some?
    ensures '"' !in t[2..6] && '\\' !in t[2..6] && t[..6][2..] == t[2..6]
  {
    forall c | c in t[2..6] ensures HexValue(c).Some? {
      var i :| 0 <= i < 4 && t[2..6][i] == c;
      assert c == t[i + 2];
    }
  }

  lemma UnitStaysInside(t: string)
    requires CodeUnit(t).Some?
    ensures Scan(t[..6], INSIDE) == INSIDE
  {
    var e := t[..6];
    UnitIsPlain(t);
    assert e[0] == '\\' && e[1] == 'u';
    assert e == ['\\', 'u'] + e[2..];
    ScanPair('u', 0);
    PlainInString(e[2..], 0);
    ScanAppend(['\\', 'u'], e[2..], INSIDE);
  }

  lemma {:induction false} StringCloses(t: string)
    requires ReadString(t).Some?
    ensures var r := ReadString(t).value.1; r == t[|t| - |r|..] && Scan(t[..|t| - |r|], INSIDE) == START
    decreases |t|
  {
    if t[0] == '"' {
      assert t[..1] == "\"" && Scan("\"", INSIDE) == START;
    } else {
      CharInFront(t);
      var u := t[ReadChar(t).value.1..];
      StringCloses(u);
      ClosesBehind(t, ReadString(u).value.1);
    }
  }

  lemma CharInFront(t: string)
    requires ReadString(t).Some? && t[0] != '"'
    ensures ReadChar(t).Some?
    ensures var u := t[ReadChar(t).value.1..]; ReadString(u).Some? && ReadString(u).value.1 == ReadString(t).value.1
  {
  }

  lemma ClosesBehind(t: string, r: string)
    requires ReadChar(t).Some?
    requires var u := t[ReadChar(t).value.1..];
             |r| <= |u| && r == u[|u| - |r|..] && Scan(u[..|u| - |r|], INSIDE) == START
    ensures r == t[|t| - |r|..] && Scan(t[..|t| - |r|], INSIDE) == START
  {
    var n := ReadChar(t).value.1;
    var u := t[n..];
    CharStaysInside(t);
    FrontOf(t, n, |u| - |r|);
    ScanAppend(t[..n], u[..|u| - |r|], INSIDE);
  }

  lemma FrontOf(t: string, n: nat, k: nat)
    requires n + k <= |t|
    ensures t[..n + k] == t[..n] + t[n..][..k] && t[n + k..] == t[n..][k..]
  {
  }

  lemma ConsumesString(t: string)
    requires t != "" && t[0] == '"' && ReadString(t[1..]).Some?
    ensures Consumes(t, ReadString(t[1..]).value.1)
  {
    var u, r := t[1..], ReadString(t[1..]).value.1;
    StringCloses(u);
    assert t[..|t| - |r|] == "\"" + u[..|u| - |r|];
    ScanAppend("\"", u[..|u| - |r|], START);
    assert Scan("\"", START) == INSIDE;
  }

  lemma ConsumesBracket(t: string, u: string, r: string)
    requires t != "" && t[0] == '[' && Consumes(t[1..], u) && ConsumesTo(u, r, ']')
    ensures Consumes(t, r)
  {
    ConsumesThenTo(t[1..], u, r, ']');
    var last := t[|t| - |r| - 1..];
    assert t[1..][..|t[1..]| - |r| - 1] == t[1..][..|t[1..]| - |last|];
    assert last == t[1..][|t[1..]| - |last|..];
    ConsumesOne(t);
    ConsumesThen(t, t[1..], last);
    ConsumesOne(last);
    assert last[1..] == r;
    ConsumesThen(t, last, r);
  }

  lemma ConsumesBrace(t: string, u: string, r: string)
    requires t != "" && t[0] == '{' && Consumes(t[1..], u) && ConsumesTo(u, r, '}')
    ensures Consumes(t, r)
  {
    ConsumesThenTo(t[1..], u, r, '}');
    var inner := t[1..][..|t[1..]| - |r| - 1];
    assert t[..|t| - |r|] == "{" + inner + "}";
    BracesAround(inner);
  }

  lemma OnlyClose(u: string)
    requires u != ""
    ensures ConsumesTo(u, u[1..], u[0])
  {
    assert u[..|u| - |u[1..]| - 1] == "";
  }

  lemma {:induction false} ValueConsumes(t: string)
    requires ReadValue(t).Some?
    ensures Consumes(t, ReadValue(t).value.1)
    decreases |t|, 2
  {
    var u := Skip(t);
    ConsumesBlanks(t);
    TokenConsumes(u);
    var r := ReadToken(u).value.1;
    ConsumesBlanks(r);
    ConsumesThen(t, u, r);
    ConsumesThen(t, r, Skip(r));
  }

  lemma {:induction false} TokenConsumes(t: string)
    requires ReadToken(t).Some?
    ensures Consumes(t, ReadToken(t).value.1)
    decreases |t|, 1
  {
    var r := ReadToken(t).value.1;
    if t[0] == '"' {
      ConsumesString(t);
    } else if t[0] == '[' || t[0] == '{' {
      var u := Skip(t[1..]);
      ConsumesBlanks(t[1..]);
      if t[0] == '[' {
        if u[0] == ']' {
          OnlyClose(u);
        } else {
          ItemsConsume(u);
        }
        ConsumesBracket(t, u, r);
      } else {
        if u[0] == '}' {
          OnlyClose(u);
        } else {
          MembersConsume(u);
        }
        ConsumesBrace(t, u, r);
      }
    } else {
      ConsumesPlain(t, ScalarRun(t));
    }
  }

  lemma {:induction false} ItemsConsume(t: string)
    requires ReadItems(t).Some?
    ensures ConsumesTo(t, ReadItems(t).value.1, ']')
    decreases |t|, 3
  {
    ValueConsumes(t);
    var r := ReadValue(t).value.1;
    if r[0] == ']' {
      OnlyClose(r);
      ConsumesThenTo(t, r, r[1..], ']');
    } else {
      ConsumesOne(r);
      ConsumesThen(t, r, r[1..]);
      ItemsConsume(r[1..]);
      ConsumesThenTo(t, r[1..], ReadItems(t).value.1, ']');
    }
  }

  lemma {:induction false} MemberConsumes(t: string)
    requires ReadMember(t).Some?
    ensures Consumes(t, ReadMember(t).value.1)
    decreases |t|, 3
  {
    var u := Skip(t);
    var t1 := ReadString(u[1..]).value.1;
    var t2 := Skip(t1);
    ConsumesBlanks(t);
    ConsumesString(u);
    ConsumesBlanks(t1);
    ConsumesOne(t2);
    ValueConsumes(t2[1..]);
    ConsumesThen(t, u, t1);
    ConsumesThen(t, t1, t2);
    ConsumesThen(t, t2, t2[1..]);
    ConsumesThen(t, t2[1..], ReadMember(t).value.1);
  }

  lemma {:induction false} MembersConsume(t: string)
    requires ReadMembers(t).Some?
    ensures ConsumesTo(t, ReadMembers(t).value.1, '}')
    decreases |t|, 4
  {
    MemberConsumes(t);
    var r := ReadMember(t).value.1;
    if r[0] == '}' {
      OnlyClose(r);
      ConsumesThenTo(t, r, r[1..], '}');
    } else {
      ConsumesOne(r);
      ConsumesThen(t, r, r[1..]);
      MembersConsume(r[1..]);
      ConsumesThenTo(t, r[1..], ReadMembers(t).value.1, '}');
    }
  }

  /** JSON text is balanced. */
  lemma JsonIsClosed(t: string)
    requires IsJson(t)
    ensures Closed(t)
  {
    ValueConsumes(t);
    assert t[..|t| - 0] == t;
  }
}
