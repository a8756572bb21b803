/** Java's `String.split(",")` with the default limit of zero: the text is cut
    at every comma, trailing empty fields are discarded, and a text with no
    comma at all comes back whole as the single field. */
module JavaSplit {

  const Comma: char := ','

  /** Index of the first comma in `s`, or `|s|` when there is none. */
  function FirstComma(s: string): (i: nat)
    ensures i <= |s|
    ensures forall j :: 0 <= j < i ==> s[j] != Comma
    ensures i < |s| ==> s[i] == Comma
    decreases |s|
  {
    if |s| == 0 || s[0] == Comma then 0 else 1 + FirstComma(s[1..])
  }

  /** Every field between commas, empty ones included: one more field than
      there are commas. */
  function Fields(s: string): (r: seq<string>)
    ensures |r| >= 1
    ensures forall k :: 0 <= k < |r| ==> Comma !in r[k]
    decreases |s|
  {
    var i := FirstComma(s);
    if i == |s| then [s] else [s[..i]] + Fields(s[i + 1..])
  }

  /** Fields glued back together with a comma between neighbours. */
  function Join(fields: seq<string>): string
  {
    if |fields| == 0 then ""
    else if |fields| == 1 then fields[0]
    else fields[0] + [Comma] + Join(fields[1..])
  }

  /** The longest prefix of `t` that does not end in an empty string. */
  function DropTrailingEmpty(t: seq<string>): (r: seq<string>)
    ensures r <= t
    ensures forall k :: |r| <= k < |t| ==> t[k] == ""
    ensures |r| > 0 ==> r[|r| - 1] != ""
  {
    if |t| == 0 then []
    else if t[|t| - 1] == "" then DropTrailingEmpty(t[..|t| - 1])
    else t
  }

  /** `s.split(",")` as Java computes it: the text itself when it holds no
      comma; otherwise a prefix of the comma-separated fields that stops at
      the last non-empty one, so that only empty fields are thrown away. */
  function Split(s: string): (r: seq<string>)
    ensures Comma !in s ==> r == [s]
    ensures Comma in s ==>
      && r <= Fields(s)
      && (forall k :: |r| <= k < |Fields(s)| ==> Fields(s)[k] == "")
      && (|r| > 0 ==> r[|r| - 1] != "")
    ensures forall k :: 0 <= k < |r| ==> Comma !in r[k]
  {
    if Comma !in s then [s] else DropTrailingEmpty(Fields(s))
  }

  /** The fields of `s` join back to `s`. */
  lemma {:induction false} JoinFields(s: string)
    ensures Join(Fields(s)) == s
    decreases |s|
  {
    var i := FirstComma(s);
    if i < |s| {
      var rest := s[i + 1..];
      JoinFields(rest);
      JoinCons(s[..i], Fields(rest));
      CutAtComma(s, i);
    }
  }

  /** Joining a field in front of at least one more field. */
  lemma JoinCons(x: string, rest: seq<string>)
    requires |rest| >= 1
    ensures Join([x] + rest) == x + [Comma] + Join(rest)
  {
    var f := [x] + rest;
    assert f[0] == x && f[1..] == rest;
  }

  /** A text is the part before a comma, the comma and the part after. */
  lemma CutAtComma(s: string, i: nat)
    requires i < |s| && s[i] == Comma
    ensures s == s[..i] + [Comma] + s[i + 1..]
  {
  }

  /** A text without commas has its "first comma" at its end. */
  lemma FirstCommaOfCommaFree(s: string)
    requires Comma !in s
    ensures FirstComma(s) == |s|
  {
    forall j | 0 <= j < |s|
      ensures s[j] != Comma
    {
      assert s[j] in s;
    }
  }

  /** `FirstComma` finds exactly the comma placed after a comma-free prefix. */
  lemma FirstCommaAfter(a: string, b: string)
    requires Comma !in a
    ensures FirstComma(a + [Comma] + b) == |a|
  {
    var s := a + [Comma] + b;
    assert s[|a|] == Comma;
    forall j | 0 <= j < |a|
      ensures s[j] != Comma
    {
      assert s[j] == a[j];
      assert a[j] in a;
    }
  }

  /** A comma-free field followed by a comma is the first field. */
  lemma FieldsAfterComma(a: string, b: string)
    requires Comma !in a
    ensures Fields(a + [Comma] + b) == [a] + Fields(b)
  {
    var s := a + [Comma] + b;
    FirstCommaAfter(a, b);
    assert s[..|a|] == a;
    assert s[|a| + 1..] == b;
  }

  /** Comma-free fields split back out of their join: `Fields` and `Join`
      are inverse in both directions. */
  lemma {:induction false} FieldsJoin(fields: seq<string>)
    requires |fields| >= 1
    requires forall k :: 0 <= k < |fields| ==> Comma !in fields[k]
    ensures Fields(Join(fields)) == fields
  {
    if |fields| == 1 {
      FirstCommaOfCommaFree(fields[0]);
    } else {
      var a, rest := fields[0], fields[1..];
      assert Comma !in fields[0];
      FieldsJoin(rest);
      JoinCons(a, rest);
      FieldsAfterComma(a, Join(rest));
      assert fields == [a] + rest;
    }
  }

  /** A single comma-free field, or several whose last one is not empty,
      split back out of their join: `Split` undoes `Join` wherever the
      joined fields can come out of a split at all. */
  lemma {:induction false} SplitJoin(fields: seq<string>)
    requires |fields| == 1 || (|fields| >= 2 && fields[|fields| - 1] != "")
    requires forall k :: 0 <= k < |fields| ==> Comma !in fields[k]
    ensures Split(Join(fields)) == fields
  {
    if |fields| == 1 {
      assert Comma !in fields[0];
      return;
    }
    var s := Join(fields);
    FieldsJoin(fields);
    JoinCons(fields[0], fields[1..]);
    assert [fields[0]] + fields[1..] == fields;
    assert s[|fields[0]|] == Comma;
  }

  /** Nothing but the discarded trailing empty fields is lost: putting them
      back and joining reproduces the text. */
  lemma {:induction false} SplitLosesOnlyTrailingEmpties(s: string)
    ensures Join(Split(s) + seq(|Fields(s)| - |Split(s)|, _ => "")) == s
  {
    var f := Fields(s);
    var r := Split(s);
    JoinFields(s);
    if Comma !in s {
      FirstCommaOfCommaFree(s);
      assert f == [s];
    }
    assert |r| <= |f|;
    assert r + seq(|f| - |r|, _ => "") == f;
  }

  /** The empty text is one empty token, so an empty message reaches the
      number parser rather than the size check. */
  lemma SplitEmpty()
    ensures Split("") == [""]
  {
  }

  /** A text made only of a comma splits into no tokens at all. */
  lemma {:induction false} SplitLoneComma()
    ensures Split(",") == []
  {
    var f := ["", ""];
    assert Join(f) == ",";
    FieldsJoin(f);
    assert ","[0] == Comma;
  }

  /** Trailing empty fields go, inner ones stay. */
  lemma {:induction false} SplitKeepsInnerEmpties()
    ensures Split("1,,2,,") == ["1", "", "2"]
  {
    FieldsOfInnerEmpties();
    DropTwoTrailingEmpties();
    assert "1,,2,,"[1] == Comma;
  }

  /** The five fields of `1,,2,,`. */
  lemma {:induction false} FieldsOfInnerEmpties()
    ensures Fields("1,,2,,") == ["1", "", "2", "", ""]
  {
    var f := ["1", "", "2", "", ""];
    assert Join(f) == "1,,2,,";
    FieldsJoin(f);
  }

  /** Only the two trailing empty fields are discarded. */
  lemma DropTwoTrailingEmpties()
    ensures DropTrailingEmpty(["1", "", "2", "", ""]) == ["1", "", "2"]
  {
    var f := ["1", "", "2", "", ""];
    assert f[..4] == ["1", "", "2", ""];
    assert f[..4][..3] == ["1", "", "2"];
  }
}
