/**
 The arguments of a finished tagged call are JSON text, and a reader takes them back to the
 members that were given: strings as they are, the other values as the JSON they become.
 */
module ToolCallReading {
  import opened Text
  import opened JsonText
  import opened ToolCallMapper
  import opened ToolCallTraces
  import JsonBalance
  import JsonReader
  import Trim

  type Json = JsonReader.Json

  /** A string, or a bare value that becomes JSON. */
  predicate BecomesJson(v: Value) {
    v.Str? || JsonReader.IsJson(ValueText(v))
  }

  function Meaning(v: Value): Json
    requires BecomesJson(v)
  {
    if v.Str? then JsonReader.Str(v.s) else JsonReader.ReadValue(ValueText(v)).value.0
  }

  function MemberMeaning(a: Argument): (string, Json)
    requires BecomesJson(a.value)
  {
    (Trim.Both(a.key), Meaning(a.value))
  }

  predicate AllJson(args: seq<Argument>) {
    forall a <- args :: BecomesJson(a.value)
  }

  function Meanings(args: seq<Argument>): seq<(string, Json)>
    requires AllJson(args)
  {
    if args == [] then [] else [MemberMeaning(args[0])] + Meanings(args[1..])
  }

  lemma ValueIsRead(v: Value, rest: string)
    requires BecomesJson(v) && JsonReader.Follows(rest)
    ensures JsonReader.ReadValue(ValueText(v) + rest) == Some((Meaning(v), rest))
  {
    if v.Str? {
      JsonReader.ReadStringValue(v.s, rest);
    } else {
      JsonReader.ReadValueMore(ValueText(v), rest);
      assert "" + rest == rest;
    }
  }

  lemma MemberIsRead(a: Argument, rest: string)
    requires BecomesJson(a.value) && JsonReader.Follows(rest)
    ensures JsonReader.ReadMember(Member(a) + rest) == Some(((Trim.Both(a.key), Meaning(a.value)), rest))
  {
    var key := Trim.Both(a.key);
    Associative(Dump(key) + ":", ValueText(a.value), rest);
    JsonReader.ReadKeyed(key, ValueText(a.value) + rest);
    ValueIsRead(a.value, rest);
  }

  lemma MoreThen(m: string, ms: seq<string>)
    ensures More([m] + ms) + "}" == "," + (m + (More(ms) + "}"))
  {
    assert ([m] + ms)[1..] == ms;
    assert (("," + m) + More(ms)) + "}" == "," + (m + (More(ms) + "}"));
  }

  lemma LastIsRead(a: Argument)
    requires BecomesJson(a.value)
    ensures JsonReader.ReadMembers(Member(a) + "}") == Some(([MemberMeaning(a)], ""))
  {
    MemberIsRead(a, "}");
    Closing(Member(a) + "}", MemberMeaning(a));
  }

  lemma Closing(t: string, m: (string, Json))
    requires JsonReader.ReadMember(t) == Some((m, "}"))
    ensures JsonReader.ReadMembers(t) == Some(([m], ""))
  {
    assert "}" == "}" + "";
    JsonReader.LastMember(t, m, "");
  }

  lemma NextIsRead(a: Argument, tail: string, more: seq<(string, Json)>)
    requires BecomesJson(a.value) && JsonReader.ReadMembers(tail) == Some((more, ""))
    ensures JsonReader.ReadMembers(Member(a) + ("," + tail)) == Some(([MemberMeaning(a)] + more, ""))
  {
    MemberIsRead(a, "," + tail);
    JsonReader.NextMember(Member(a) + ("," + tail), MemberMeaning(a), tail);
  }

  lemma NothingMore()
    ensures More([]) + "}" == "}"
  {
  }

  lemma {:induction false} MembersAreRead(a: Argument, args: seq<Argument>)
    requires BecomesJson(a.value) && AllJson(args)
    ensures JsonReader.ReadMembers(Member(a) + (More(Members(args)) + "}"))
         == Some(([MemberMeaning(a)] + Meanings(args), ""))
    decreases |args|
  {
    if args == [] {
      NothingMore();
      LastIsRead(a);
      assert [MemberMeaning(a)] + [] == [MemberMeaning(a)];
    } else {
      MembersAreRead(args[0], args[1..]);
      MoreThen(Member(args[0]), Members(args[1..]));
      NextIsRead(a, Member(args[0]) + (More(Members(args[1..])) + "}"), Meanings(args));
    }
  }

  lemma EmptyObject()
    ensures JsonReader.ReadValue("{" + "" + "}") == Some((JsonReader.Obj([]), ""))
  {
    JsonReader.ReadEmpty('{', '}', "");
    assert (['{'] + "" + ['}']) + "" == "{" + "" + "}";
  }

  lemma Enclosed(inner: string, members: seq<(string, Json)>)
    requires inner != "" && inner[0] == '"' && JsonReader.ReadMembers(inner + "}") == Some((members, ""))
    ensures JsonReader.ReadValue("{" + inner + "}") == Some((JsonReader.Obj(members), ""))
  {
    JsonReader.ReadObject(inner, "");
    assert "}" + "" == "}" && ("{" + inner + "}") + "" == "{" + inner + "}";
  }

  lemma MemberStarts(a: Argument, rest: string)
    ensures Member(a) + rest != "" && (Member(a) + rest)[0] == '"'
  {
  }

  lemma ObjectIsRead(args: seq<Argument>)
    requires AllJson(args)
    ensures JsonReader.ReadValue("{" + Join(",", Members(args)) + "}") == Some((JsonReader.Obj(Meanings(args)), ""))
  {
    if args == [] {
      EmptyObject();
    } else {
      var m, more := Member(args[0]), More(Members(args[1..]));
      JoinMore(m, Members(args[1..]));
      MembersAreRead(args[0], args[1..]);
      Associative(m, more, "}");
      MemberStarts(args[0], more);
      Enclosed(m + more, Meanings(args));
    }
  }

  /** A bare value that becomes JSON leaves no brace open. */
  lemma JsonArgumentsClosed(args: seq<Argument>)
    requires AllJson(args)
    ensures RawClosed(args)
  {
    forall i | 0 <= i < |args| && args[i].value.Raw? ensures Closed(ValueText(args[i].value)) {
      assert args[i] in args;
      JsonBalance.JsonIsClosed(ValueText(args[i].value));
    }
  }

  /** The arguments come back as they were given, wherever the name of the tool stands. */
  lemma ArgumentsReadBack(st: State, args: seq<Argument>, i: nat, name: string)
    requires st.WellFormed() && i <= |AllNodes(args)| && Trim.Trailing(name, -1) != ""
    requires AllJson(args)
    ensures var calls := Run(st, ToolTrace(AllNodes(args), i, name)).calls;
            && |calls| == |st.calls| + 1
            && JsonReader.ReadValue(calls[|st.calls|].arguments) == Some((JsonReader.Obj(Meanings(args)), ""))
  {
    TaggedCallExact(st, args, i, name);
    JsonArgumentsClosed(args);
    ObjectIsRead(args);
  }

  function StringMembers(args: seq<Argument>): seq<(string, Json)> {
    if args == [] then [] else [(Trim.Both(args[0].key), JsonReader.Str(args[0].value.s))] + StringMembers(args[1..])
  }

  lemma {:induction false} StringMeanings(args: seq<Argument>)
    requires forall a <- args :: a.value.Str?
    ensures AllJson(args) && Meanings(args) == StringMembers(args)
  {
    if args != [] {
      StringMeanings(args[1..]);
    }
  }

  /** String arguments come back exactly as they were given, whatever quotes, backslashes
      or braces they hold. */
  lemma StringArgumentsReadBack(st: State, args: seq<Argument>, i: nat, name: string)
    requires st.WellFormed() && i <= |AllNodes(args)| && Trim.Trailing(name, -1) != ""
    requires forall a <- args :: a.value.Str?
    ensures var calls := Run(st, ToolTrace(AllNodes(args), i, name)).calls;
            && |calls| == |st.calls| + 1
            && JsonReader.ReadValue(calls[|st.calls|].arguments) == Some((JsonReader.Obj(StringMembers(args)), ""))
  {
    StringMeanings(args);
    ArgumentsReadBack(st, args, i, name);
  }
}
