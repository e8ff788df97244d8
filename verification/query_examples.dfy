/** Concrete behaviour of the codec on small queries: default fallback,
    boolean case folding, malformed numbers, omission of falsy values and the
    repeated-key array round trip. */
module QueryExamples {
  import opened Js
  import opened Strings
  import opened QueryCodec
  import QueryRoundTrip

  /** A key missing from the query keeps its default, a present one is read:
      "?b=2" against `{ a: "x", b: "y" }` is `{ a: "x", b: "2" }`. */
  lemma DefaultFallback(rt: Runtime)
    requires rt.formDecode("b") == "b" && rt.formDecode("2") == "2"
    ensures ParseUrlParams(rt, "?b=2", [("a", Text("x")), ("b", Text("y"))]) == [("a", Text("x")), ("b", Text("2"))]
  {
    OnePair(rt, "b", "2");
    assert "?" + "b" + "=" + "2" == "?b=2";
    var list := SearchParams(rt, "?b=2");
    assert list == [("b", "2")];
    assert !Has(list, "a");
    assert GetAll(list, "b") == ["2"];
  }

  /** A boolean is true when its text lower-cases to "true": "?flag=TRUE"
      gives true against a `false` default. */
  lemma UpperCaseTrue(rt: Runtime)
    requires rt.formDecode("flag") == "flag" && rt.formDecode("TRUE") == "TRUE"
    ensures ParseUrlParams(rt, "?flag=TRUE", [("flag", Bool(false))]) == [("flag", Bool(true))]
  {
    assert DecodeValue(rt, Bool(false), [rt.formDecode("TRUE")]) == Bool(true) by {
      LowerOfUpperTrue();
    }
    assert "?" + "flag" + "=" + "TRUE" == "?flag=TRUE";
    OneKey(rt, "flag", "TRUE", Bool(false));
  }

  lemma LowerOfUpperTrue()
    ensures AsciiLower("TRUE") == "true"
  {
    var lowered := AsciiLower("TRUE");
    assert lowered[0] == 't' && lowered[1] == 'r' && lowered[2] == 'u' && lowered[3] == 'e';
  }

  /** Any other text is false: "?flag=yes" gives false. */
  lemma OtherTextFalse(rt: Runtime)
    requires rt.formDecode("flag") == "flag" && rt.formDecode("yes") == "yes"
    ensures ParseUrlParams(rt, "?flag=yes", [("flag", Bool(false))]) == [("flag", Bool(false))]
  {
    assert DecodeValue(rt, Bool(false), [rt.formDecode("yes")]) == Bool(false) by {
      assert |AsciiLower("yes")| == 3;
    }
    assert "?" + "flag" + "=" + "yes" == "?flag=yes";
    OneKey(rt, "flag", "yes", Bool(false));
  }

  /** "?flag=" and a text without '&' reads, against a boolean default, as
      the text decoded as a boolean. */
  lemma OneBoolean(rt: Runtime, text: string)
    requires rt.formDecode("flag") == "flag" && rt.formDecode(text) == text
    requires '&' !in text
    ensures ParseUrlParams(rt, "?flag=" + text, [("flag", Bool(false))]) == [("flag", DecodeValue(rt, Bool(false), [text]))]
  {
    OneKey(rt, "flag", text, Bool(false));
    assert "?" + "flag" + "=" + text == "?flag=" + text;
  }

  /** A malformed number is not an error: "?count=abc" against `{ count: 0 }`
      gives `Number("abc")`, which is NaN. */
  lemma MalformedNumber(rt: Runtime)
    requires rt.formDecode("count") == "count" && rt.formDecode("abc") == "abc"
    requires rt.stringToNumber("abc") == NaN
    ensures ParseUrlParams(rt, "?count=abc", [("count", Num(Finite(0.0)))]) == [("count", Num(NaN))]
  {
    var zero := Num(Finite(0.0));
    assert DecodeValue(rt, zero, [rt.formDecode("abc")]) == Num(NaN);
    assert "?" + "count" + "=" + "abc" == "?count=abc";
    OneKey(rt, "count", "abc", zero);
  }

  /** Falsy values and empty arrays are all dropped, so a record of nothing
      else is written as the empty string, in either array mode. */
  lemma FalsyOmitted(rt: Runtime, commaMode: bool)
    ensures Encode(rt, Some([("showX", Bool(false)), ("name", Text("")), ("count", Num(Finite(0.0))), ("items", List([]))]), commaMode)
            == Normal("")
  {
    var p := [("showX", Bool(false)), ("name", Text("")), ("count", Num(Finite(0.0))), ("items", List([]))];
    assert forall i :: 0 <= i < |p| ==> !Emitted(p[i].1);
  }

  /** A text array written as repeated keys reads back in order:
      `{ tags: ["a", "b"] }` against `{ tags: [] }`. */
  lemma RepeatedKeyArray(rt: Runtime)
    requires QueryRoundTrip.WireInverse(rt)
    ensures var p := [("tags", List([StrItem("a"), StrItem("b")]))];
            var q := Encode(rt, Some(p), false);
            q.Normal? && ParseUrlParams(rt, q.value, [("tags", List([]))]) == p
  {
    var items := [StrItem("a"), StrItem("b")];
    var p := [("tags", List(items))];
    QueryRoundTrip.RoundTrip(rt, p, [("tags", List([]))]);
    QueryRoundTrip.TextListRereads(rt, items);
  }
}
