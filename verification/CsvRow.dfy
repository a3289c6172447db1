/**
 The one-row CSV parser with quoted fields and doubled quotes, and the rows it reads back
 (section 2 of RFC 4180).
 */
module CsvRow {
  import opened Text

  // ----- The parser -----

  /** The fields still to come, inside the field `field`. */
  function Fields(s: string, field: string, inQuotes: bool): (r: seq<string>)
    ensures r != []
    decreases |s|
  {
    if s == "" then [field]
    else if s[0] == '"' then
      if !inQuotes then
        if field != "" then Fields(s[1..], field + "\"", false)
        else Fields(s[1..], field, true)
      else if |s| > 1 && s[1] == '"' then Fields(s[2..], field + "\"", true)
      else Fields(s[1..], field, false)
    else if s[0] == ',' then
      if inQuotes then Fields(s[1..], field + ",", true)
      else [field] + Fields(s[1..], "", false)
    else Fields(s[1..], field + [s[0]], inQuotes)
  }

  /** `parse_csv_row`. */
  method ParseRow(input: string) returns (fields: seq<string>)
    ensures fields == Fields(input, "", false)
  {
    fields := [];
    var field, inQuotes := "", false;
    var i := 0;
    assert input[0..] == input;
    while i < |input|
      invariant i <= |input|
      invariant fields + Fields(input[i..], field, inQuotes) == Fields(input, "", false)
    {
      var ch := input[i];
      assert input[i..][1..] == input[i + 1..];
      if ch == '"' {
        if !inQuotes {
          if field != "" {
            field := field + "\"";
          } else {
            inQuotes := true;
          }
        } else if i + 1 < |input| && input[i + 1] == '"' {
          assert input[i..][2..] == input[i + 2..];
          field := field + "\"";
          i := i + 1;
        } else {
          inQuotes := false;
        }
      } else if ch == ',' {
        if inQuotes {
          field := field + ",";
        } else {
          Associative(fields, [field], Fields(input[i + 1..], "", false));
          fields := fields + [field];
          field := "";
        }
      } else {
        field := field + [ch];
      }
      i := i + 1;
    }
    fields := fields + [field];
  }

  // ----- Writing a row -----

  function Doubled(f: string): string {
    if f == "" then "" else (if f[0] == '"' then "\"\"" else [f[0]]) + Doubled(f[1..])
  }

  /** A field that may be written without quotes. */
  predicate Bare(f: string) {
    ',' !in f && (f == "" || f[0] != '"')
  }

  datatype Cell = Plain(text: string) | Quoted(text: string)

  function Written(c: Cell): string {
    match c
    case Plain(f) => f
    case Quoted(f) => "\"" + Doubled(f) + "\""
  }

  function Row(cells: seq<Cell>): string
    requires cells != []
  {
    if |cells| == 1 then Written(cells[0]) else Written(cells[0]) + "," + Row(cells[1..])
  }

  function Texts(cells: seq<Cell>): (r: seq<string>)
    ensures |r| == |cells| && forall k :: 0 <= k < |r| ==> r[k] == cells[k].text
  {
    if cells == [] then [] else [cells[0].text] + Texts(cells[1..])
  }

  // ----- Reading it back -----

  lemma Step(c: char, a: string, t: string)
    ensures ([c] + a + t)[1..] == a + t && ([c] + a + t)[0] == c
  {
  }

  lemma {:induction false} BareIsRead(f: string, t: string, field: string)
    requires ',' !in f && (field + f == "" || (field + f)[0] != '"')
    ensures Fields(f + t, field, false) == Fields(t, field + f, false)
    decreases |f|
  {
    if f == "" {
      assert f + t == t && field + f == field;
    } else {
      assert f == [f[0]] + f[1..];
      Step(f[0], f[1..], t);
      assert (field + [f[0]]) + f[1..] == field + f;
      assert field + f != "" && (field == "" ==> (field + f)[0] == f[0]);
      BareIsRead(f[1..], t, field + [f[0]]);
    }
  }

  lemma DoubledThen(f: string, t: string)
    requires f != ""
    ensures Doubled(f) + "\"" + t == (if f[0] == '"' then "\"\"" else [f[0]]) + (Doubled(f[1..]) + "\"" + t)
  {
  }

  lemma {:induction false} QuotedIsRead(f: string, t: string, field: string)
    requires t == "" || t[0] != '"'
    ensures Fields(Doubled(f) + "\"" + t, field, true) == Fields(t, field + f, false)
    decreases |f|
  {
    if f == "" {
      var s := Doubled(f) + "\"" + t;
      assert s[0] == '"' && s[1..] == t && field + f == field;
    } else {
      QuotedIsRead(f[1..], t, field + [f[0]]);
      assert (field + [f[0]]) + f[1..] == field + f;
      var rest := Doubled(f[1..]) + "\"" + t;
      DoubledThen(f, t);
      if f[0] == '"' {
        assert ("\"\"" + rest)[2..] == rest;
      } else {
        assert ([f[0]] + rest)[1..] == rest;
      }
    }
  }

  lemma Opened(doubled: string, t: string)
    ensures var s := ("\"" + doubled + "\"") + t; s[0] == '"' && s[1..] == doubled + "\"" + t
  {
  }

  lemma CellIsRead(c: Cell, t: string)
    requires c.Plain? ==> Bare(c.text)
    requires t == "" || t[0] == ','
    ensures Fields(Written(c) + t, "", false) == Fields(t, c.text, false)
  {
    assert "" + c.text == c.text;
    match c
    case Plain(f) => BareIsRead(f, t, "");
    case Quoted(f) =>
      QuotedIsRead(f, t, "");
      Opened(Doubled(f), t);
  }

  /** Any list of fields, each quoted or, where allowed, bare, is read back exactly. */
  lemma {:induction false} RoundTrip(cells: seq<Cell>)
    requires cells != [] && forall k :: 0 <= k < |cells| && cells[k].Plain? ==> Bare(cells[k].text)
    ensures Fields(Row(cells), "", false) == Texts(cells)
    decreases |cells|
  {
    if |cells| == 1 {
      CellIsRead(cells[0], "");
      assert Written(cells[0]) + "" == Written(cells[0]);
    } else {
      var t := "," + Row(cells[1..]);
      CellIsRead(cells[0], t);
      assert Row(cells) == Written(cells[0]) + t;
      assert t[1..] == Row(cells[1..]);
      RoundTrip(cells[1..]);
    }
  }

  // ----- Which fields may stay bare -----

  function Size(fields: seq<string>): nat {
    if fields == [] then 0 else |fields[0]| + Size(fields[1..])
  }

  lemma {:induction false} NothingInvented(s: string, field: string, inQuotes: bool)
    ensures Size(Fields(s, field, inQuotes)) <= |field| + |s|
    decreases |s|
  {
    if s == "" {
      assert Size([field]) == |field| + Size([]);
    } else if s[0] == '"' {
      if !inQuotes {
        NothingInvented(s[1..], if field != "" then field + "\"" else field, field == "");
      } else if |s| > 1 && s[1] == '"' {
        NothingInvented(s[2..], field + "\"", true);
      } else {
        NothingInvented(s[1..], field, false);
      }
    } else if s[0] == ',' {
      if inQuotes {
        NothingInvented(s[1..], field + ",", true);
      } else {
        NothingInvented(s[1..], "", false);
        assert ([field] + Fields(s[1..], "", false))[1..] == Fields(s[1..], "", false);
      }
    } else {
      NothingInvented(s[1..], field + [s[0]], inQuotes);
    }
  }

  lemma {:induction false} FirstComma(f: string) returns (k: nat)
    requires ',' in f
    ensures k < |f| && f[k] == ',' && ',' !in f[..k]
  {
    if f[0] == ',' {
      k := 0;
    } else {
      assert f == [f[0]] + f[1..];
      var j := FirstComma(f[1..]);
      k := j + 1;
      assert f[..k] == [f[0]] + f[1..][..j];
    }
  }

  /** A text written as it is reads back as itself exactly when it may stay bare: a comma
      cuts it, and a quote in front is taken as an opening one. */
  lemma BareExactly(f: string)
    ensures Fields(f, "", false) == [f] <==> Bare(f)
  {
    if Bare(f) {
      BareIsRead(f, "", "");
      assert f + "" == f && "" + f == f;
    } else if f[0] == '"' {
      NothingInvented(f[1..], "", true);
      assert Size([f]) == |f| + Size([]);
    } else {
      var k := FirstComma(f);
      var t := f[k..];
      assert f == f[..k] + t;
      if k > 0 {
        assert f[..k][0] == f[0];
      }
      BareIsRead(f[..k], t, "");
      assert Fields(t, "" + f[..k], false) == ["" + f[..k]] + Fields(t[1..], "", false);
      assert |Fields(t[1..], "", false)| > 0;
    }
  }

  // ----- Rows that no writer makes -----

  lemma {:induction false} UnclosedIsRead(f: string, field: string)
    ensures Fields(Doubled(f), field, true) == [field + f]
    decreases |f|
  {
    if f == "" {
      assert field + f == field;
    } else {
      UnclosedIsRead(f[1..], field + [f[0]]);
      assert (field + [f[0]]) + f[1..] == field + f;
      var rest := Doubled(f[1..]);
      if f[0] == '"' {
        assert ("\"\"" + rest)[2..] == rest;
      } else {
        assert ([f[0]] + rest)[1..] == rest;
      }
    }
  }

  /** A quote that is never closed keeps everything behind it in one field, and text behind
      a closing quote still belongs to the field. */
  lemma LooseQuotes(f: string, g: string)
    ensures Fields("\"" + Doubled(f), "", false) == [f]
    ensures ',' !in g && f != "" && f[0] != '"' && (g == "" || g[0] != '"') ==>
              Fields("\"" + Doubled(f) + "\"" + g, "", false) == [f + g]
  {
    assert ("\"" + Doubled(f))[1..] == Doubled(f);
    UnclosedIsRead(f, "");
    assert "" + f == f;
    if ',' !in g && f != "" && f[0] != '"' && (g == "" || g[0] != '"') {
      assert ("\"" + Doubled(f) + "\"" + g)[1..] == Doubled(f) + "\"" + g;
      QuotedIsRead(f, g, "");
      BareIsRead(g, "", f);
      assert g + "" == g;
    }
  }
}
