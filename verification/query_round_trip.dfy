/** What reading back a query string written by `queryToParams` gives, under
    stated assumptions about the library functions the codec calls. */
module QueryRoundTrip {
  import opened Js
  import opened Strings
  import opened QueryCodec

  /** Percent-decoding undoes `encodeURIComponent`, whose output never holds
      '&' or '='. Both hold of the real functions for every string without
      lone surrogates. */
  ghost predicate WireInverse(rt: Runtime)
  {
    && (forall s :: rt.formDecode(rt.encodeComponent(s)) == s)
    && (forall s :: '&' !in rt.encodeComponent(s) && '=' !in rt.encodeComponent(s))
  }

  /** `Number(String(n))` is `n` for every number other than NaN. */
  ghost predicate NumbersReadBack(rt: Runtime)
  {
    forall n :: n != NaN ==> rt.stringToNumber(rt.numberToString(n)) == n
  }

  /** `new Date(d.toISOString())` has the time value of `d`. */
  ghost predicate DatesReadBack(rt: Runtime)
  {
    forall t :: rt.parseDate(rt.dateToIso(t)) == ValidDate(t)
  }

  /** The values a kept key is written with, in order. */
  function WrittenValues(rt: Runtime, v: Value, commaMode: bool): seq<string>
    requires !Throws(v)
  {
    if !Emitted(v) then []
    else if v.List? && !commaMode then ItemTexts(rt, v.items)
    else [ValueText(rt, v)]
  }

  /** What `parseUrlParams` makes of a value `queryToParams` wrote in default
      mode, given a default of the same kind. */
  function Reread(rt: Runtime, v: Value): Value
    requires !Throws(v)
  {
    match v
    case Text(s) => Text(s)
    case Num(n) => Num(rt.stringToNumber(rt.numberToString(n)))
    case Bool(b) => Bool(b)
    case Date(d) => Date(rt.parseDate(rt.dateToIso(d.time)))
    case List(items) => List(StrItems(ItemTexts(rt, items)))
    case Undefined => Undefined
    case Null => Null
  }

  /** The record expected back: each kept key reread, each omitted key at its
      default. */
  function Restore(rt: Runtime, p: Record, defaults: Record): (r: Record)
    requires |defaults| == |p|
    requires forall i :: 0 <= i < |p| ==> !Throws(p[i].1)
    ensures |r| == |p|
    ensures forall i :: 0 <= i < |p| ==>
              r[i] == (p[i].0, if Emitted(p[i].1) then Reread(rt, p[i].1) else defaults[i].1)
  {
    if p == [] then []
    else
      [(p[0].0, if Emitted(p[0].1) then Reread(rt, p[0].1) else defaults[0].1)]
      + Restore(rt, p[1..], defaults[1..])
  }

  lemma {:induction false} PairTextsAppend(rt: Runtime, a: NameValueList, b: NameValueList)
    ensures PairTexts(rt, a + b) == PairTexts(rt, a) + PairTexts(rt, b)
  {
    assert |PairTexts(rt, a + b)| == |PairTexts(rt, a) + PairTexts(rt, b)|;
    forall i | 0 <= i < |a + b|
      ensures PairTexts(rt, a + b)[i] == (PairTexts(rt, a) + PairTexts(rt, b))[i]
    {
    }
  }

  /** The chunks `queryToParams` joins are, joined, the percent-encoded pairs
      of the record joined. */
  lemma {:induction false} ChunksArePairs(rt: Runtime, r: Record, commaMode: bool)
    requires forall i :: 0 <= i < |r| ==> !Throws(r[i].1)
    ensures Chunks(rt, r, commaMode).Normal?
    ensures Chunks(rt, r, commaMode).value == [] <==> RecordPairs(rt, r, commaMode) == []
    ensures Chunks(rt, r, commaMode).value != [] ==>
              Join(Chunks(rt, r, commaMode).value, '&')
              == Join(PairTexts(rt, RecordPairs(rt, r, commaMode)), '&')
  {
    if r != [] {
      var key := r[0].0;
      var v := r[0].1;
      var rest := r[1..];
      assert forall i :: 0 <= i < |rest| ==> rest[i] == r[i + 1];
      ChunksArePairs(rt, rest, commaMode);
      var kp := KeyPairs(rt, key, v, commaMode);
      var rp := RecordPairs(rt, rest, commaMode);
      assert RecordPairs(rt, r, commaMode) == kp + rp;
      if Emitted(v) {
        var c := Chunk(rt, key, v, commaMode).value;
        assert c == Join(PairTexts(rt, kp), '&') by {
          if !(v.List? && !commaMode) {
            assert PairTexts(rt, kp) == [PairText(rt, (key, ValueText(rt, v)))];
          }
        }
        assert |kp| > 0;
        var cs := Chunks(rt, rest, commaMode).value;
        assert Chunks(rt, r, commaMode).value == [c] + cs;
        PairTextsAppend(rt, kp, rp);
        if cs != [] {
          assert ([c] + cs)[1..] == cs;
          JoinAppend(PairTexts(rt, kp), PairTexts(rt, rp), '&');
        } else {
          assert [c] + cs == [c];
          assert kp + rp == kp;
        }
      } else {
        assert kp + rp == rp;
      }
    }
  }

  /** `queryToParams` writes exactly the record's name-value pairs: nothing
      when there are none, otherwise '?' and the encoded pairs joined by '&'. */
  lemma EncodeWritesPairs(rt: Runtime, r: Record, commaMode: bool)
    requires forall i :: 0 <= i < |r| ==> !Throws(r[i].1)
    ensures Encode(rt, Some(r), commaMode) == Normal(QueryOf(rt, RecordPairs(rt, r, commaMode)))
  {
    ChunksArePairs(rt, r, commaMode);
  }

  lemma {:induction false} ParsePairText(rt: Runtime, pair: (string, string))
    requires WireInverse(rt)
    ensures PairText(rt, pair) != ""
    ensures ParsePair(rt, PairText(rt, pair)) == pair
  {
    var k := rt.encodeComponent(pair.0);
    var v := rt.encodeComponent(pair.1);
    assert PairText(rt, pair) == k + ['='] + v;
    IndexOfAfterPrefix(k, '=', v);
    assert (k + ['='] + v)[..|k|] == k;
    assert (k + ['='] + v)[|k| + 1..] == v;
  }

  lemma {:induction false} ParsePairTexts(rt: Runtime, pairs: NameValueList)
    requires WireInverse(rt)
    ensures ParseSequences(rt, PairTexts(rt, pairs)) == pairs
  {
    if pairs != [] {
      ParsePairText(rt, pairs[0]);
      assert PairTexts(rt, pairs)[1..] == PairTexts(rt, pairs[1..]);
      ParsePairTexts(rt, pairs[1..]);
      assert pairs == [pairs[0]] + pairs[1..];
    }
  }

  /** `URLSearchParams` reads back the name-value list a query string was
      written from. */
  lemma SearchParamsOfQuery(rt: Runtime, pairs: NameValueList)
    requires WireInverse(rt)
    ensures SearchParams(rt, QueryOf(rt, pairs)) == pairs
  {
    if pairs == [] {
      assert Split("", '&') == [""];
    } else {
      var texts := PairTexts(rt, pairs);
      var q := QueryOf(rt, pairs);
      assert q[1..] == Join(texts, '&');
      forall t | t in texts
        ensures '&' !in t
      {
        var i :| 0 <= i < |texts| && texts[i] == t;
        assert t == rt.encodeComponent(pairs[i].0) + "=" + rt.encodeComponent(pairs[i].1);
      }
      SplitJoin(texts, '&');
      ParsePairTexts(rt, pairs);
    }
  }

  lemma {:induction false} GetAllAppend(a: NameValueList, b: NameValueList, name: string)
    ensures GetAll(a + b, name) == GetAll(a, name) + GetAll(b, name)
  {
    if a != [] {
      assert (a + b)[0] == a[0];
      assert (a + b)[1..] == a[1..] + b;
      GetAllAppend(a[1..], b, name);
      calc {
        GetAll(a + b, name);
        (if a[0].0 == name then [a[0].1] else []) + GetAll(a[1..] + b, name);
        (if a[0].0 == name then [a[0].1] else []) + (GetAll(a[1..], name) + GetAll(b, name));
        GetAll(a, name) + GetAll(b, name);
      }
    } else {
      assert a + b == b;
    }
  }

  lemma {:induction false} GetAllItemPairs(rt: Runtime, key: string, items: seq<Item>, name: string)
    ensures GetAll(ItemPairs(rt, key, items), name) == if name == key then ItemTexts(rt, items) else []
  {
    if items != [] {
      assert ItemPairs(rt, key, items)[1..] == ItemPairs(rt, key, items[1..]);
      assert ItemTexts(rt, items) == [ItemText(rt, items[0])] + ItemTexts(rt, items[1..]);
      GetAllItemPairs(rt, key, items[1..], name);
    }
  }

  lemma GetAllKeyPairs(rt: Runtime, key: string, v: Value, commaMode: bool, name: string)
    requires !Throws(v)
    ensures GetAll(KeyPairs(rt, key, v, commaMode), name)
            == if name == key then WrittenValues(rt, v, commaMode) else []
  {
    if Emitted(v) && v.List? && !commaMode {
      GetAllItemPairs(rt, key, v.items, name);
    }
  }

  lemma {:induction false} GetAllAbsentKey(rt: Runtime, r: Record, commaMode: bool, name: string)
    requires forall i :: 0 <= i < |r| ==> !Throws(r[i].1)
    requires forall i :: 0 <= i < |r| ==> r[i].0 != name
    ensures GetAll(RecordPairs(rt, r, commaMode), name) == []
  {
    if r != [] {
      GetAllAppend(KeyPairs(rt, r[0].0, r[0].1, commaMode), RecordPairs(rt, r[1..], commaMode), name);
      GetAllKeyPairs(rt, r[0].0, r[0].1, commaMode, name);
      GetAllAbsentKey(rt, r[1..], commaMode, name);
    }
  }

  /** In the pairs of a record with distinct keys, the values under a key are
      exactly what that key was written with. */
  lemma {:induction false} GetAllOfKey(rt: Runtime, r: Record, commaMode: bool, i: nat)
    requires forall j :: 0 <= j < |r| ==> !Throws(r[j].1)
    requires DistinctKeys(r)
    requires i < |r|
    ensures GetAll(RecordPairs(rt, r, commaMode), r[i].0) == WrittenValues(rt, r[i].1, commaMode)
  {
    var name := r[i].0;
    GetAllAppend(KeyPairs(rt, r[0].0, r[0].1, commaMode), RecordPairs(rt, r[1..], commaMode), name);
    GetAllKeyPairs(rt, r[0].0, r[0].1, commaMode, name);
    if i == 0 {
      GetAllAbsentKey(rt, r[1..], commaMode, name);
    } else {
      assert r[1..][i - 1] == r[i];
      GetAllOfKey(rt, r[1..], commaMode, i - 1);
    }
  }

  lemma LowerTrue()
    ensures AsciiLower("true") == "true"
  {
    var r := AsciiLower("true");
    assert r[0] == 't' && r[1] == 'r' && r[2] == 'u' && r[3] == 'e';
  }

  /** Decoding what was written for a kept value against a default of the
      same kind gives the reread value. */
  lemma DecodeWritten(rt: Runtime, v: Value, default: Value)
    requires !Throws(v) && Emitted(v)
    requires KindOf(default) == KindOf(v)
    ensures |WrittenValues(rt, v, false)| > 0
    ensures DecodeValue(rt, default, WrittenValues(rt, v, false)) == Reread(rt, v)
  {
    if v.Bool? {
      LowerTrue();
    }
  }

  /** The round trip of the codec in default mode: reading back what
      `queryToParams` wrote, against defaults with the same keys, gives every
      kept key its value again (numbers and dates through the library's
      conversions, array elements as text) and every omitted key its default. */
  lemma RoundTrip(rt: Runtime, p: Record, defaults: Record)
    requires WireInverse(rt)
    requires DistinctKeys(p)
    requires forall i :: 0 <= i < |p| ==> !Throws(p[i].1)
    requires |defaults| == |p|
    requires forall i :: 0 <= i < |p| ==> defaults[i].0 == p[i].0
    requires forall i :: 0 <= i < |p| && Emitted(p[i].1) ==> KindOf(defaults[i].1) == KindOf(p[i].1)
    ensures Encode(rt, Some(p), false).Normal?
    ensures ParseUrlParams(rt, Encode(rt, Some(p), false).value, defaults) == Restore(rt, p, defaults)
  {
    EncodeWritesPairs(rt, p, false);
    var pairs := RecordPairs(rt, p, false);
    SearchParamsOfQuery(rt, pairs);
    var r := ParseUrlParams(rt, Encode(rt, Some(p), false).value, defaults);
    assert r == DecodeParams(rt, pairs, defaults);
    forall i | 0 <= i < |p|
      ensures r[i] == Restore(rt, p, defaults)[i]
    {
      GetAllOfKey(rt, p, false, i);
      if Emitted(p[i].1) {
        DecodeWritten(rt, p[i].1, defaults[i].1);
      }
    }
  }

  /** A record of booleans read back against boolean defaults with the same
      keys: a `true` comes back, a `false` is not written and reads as the
      key's default. */
  lemma BooleansReadBack(rt: Runtime, p: Record, defaults: Record)
    requires WireInverse(rt)
    requires DistinctKeys(p)
    requires forall i :: 0 <= i < |p| ==> p[i].1.Bool?
    requires |defaults| == |p|
    requires forall i :: 0 <= i < |p| ==> defaults[i].0 == p[i].0 && defaults[i].1.Bool?
    ensures Encode(rt, Some(p), false).Normal?
    ensures var r := ParseUrlParams(rt, Encode(rt, Some(p), false).value, defaults);
            |r| == |p| && forall i :: 0 <= i < |p| ==> r[i] == (p[i].0, Bool(p[i].1.b || defaults[i].1.b))
  {
    RoundTrip(rt, p, defaults);
  }

  /** The round trip for scalars: a record of kept text, number,
      boolean and date values comes back unchanged against defaults of the
      same types. */
  lemma ScalarRoundTrip(rt: Runtime, p: Record, defaults: Record)
    requires WireInverse(rt) && NumbersReadBack(rt) && DatesReadBack(rt)
    requires DistinctKeys(p)
    requires forall i :: 0 <= i < |p| ==> !Throws(p[i].1) && Emitted(p[i].1) && !p[i].1.List?
    requires |defaults| == |p|
    requires forall i :: 0 <= i < |p| ==> defaults[i].0 == p[i].0 && KindOf(defaults[i].1) == KindOf(p[i].1)
    ensures Encode(rt, Some(p), false).Normal?
    ensures ParseUrlParams(rt, Encode(rt, Some(p), false).value, defaults) == p
  {
    RoundTrip(rt, p, defaults);
    var r := Restore(rt, p, defaults);
    forall i | 0 <= i < |p|
      ensures r[i] == p[i]
    {
      RereadScalar(rt, p[i].1);
    }
  }

  /** A kept scalar reads back as itself when numbers and dates do. */
  lemma RereadScalar(rt: Runtime, v: Value)
    requires NumbersReadBack(rt) && DatesReadBack(rt)
    requires !Throws(v) && Emitted(v) && !v.List?
    ensures Reread(rt, v) == v
  {
    match v
    case Num(n) =>
      assert n != NaN;
    case Date(d) =>
      assert rt.parseDate(rt.dateToIso(d.time)) == ValidDate(d.time);
    case _ =>
  }

  /** A text array comes back as the same array, elements in order. */
  lemma TextListRereads(rt: Runtime, items: seq<Item>)
    requires forall i :: 0 <= i < |items| ==> items[i].StrItem?
    ensures Reread(rt, List(items)) == List(items)
  {
    assert StrItems(ItemTexts(rt, items)) == items;
  }

  /** A number array comes back as an array of the numbers' texts: the
      decoder never turns elements back into numbers. */
  lemma NumberListRereadsAsText(rt: Runtime, n: JsNumber)
    ensures Reread(rt, List([NumItem(n)])) == List([StrItem(rt.numberToString(n))])
  {
    assert ItemTexts(rt, [NumItem(n)]) == [rt.numberToString(n)];
  }

  /** `false` is never written, so it reads back as the key's default: it
      round-trips only when the default is `false`. `true` always round-trips
      against a boolean default. */
  lemma BooleanRoundTrip(rt: Runtime, key: string, b: bool, default: bool)
    requires WireInverse(rt)
    ensures var q := Encode(rt, Some([(key, Bool(b))]), false);
            q.Normal? &&
            (ParseUrlParams(rt, q.value, [(key, Bool(default))]) == [(key, Bool(b))]
             <==> b || !default)
  {
    RoundTrip(rt, [(key, Bool(b))], [(key, Bool(default))]);
  }

  /** In comma mode an array is written as one pair, and the decoder reads it
      back as a one-element array holding the comma-joined text. */
  lemma CommaModeReadsOneElement(rt: Runtime, key: string, items: seq<Item>, default: seq<Item>)
    requires WireInverse(rt)
    requires |items| > 0
    ensures var q := Encode(rt, Some([(key, List(items))]), true);
            q.Normal? &&
            ParseUrlParams(rt, q.value, [(key, List(default))])
            == [(key, List([StrItem(Join(ItemTexts(rt, items), ','))]))]
  {
    var p := [(key, List(items))];
    var joined := Join(ItemTexts(rt, items), ',');
    EncodeWritesPairs(rt, p, true);
    var pairs := RecordPairs(rt, p, true);
    assert pairs == [(key, joined)] by {
      assert RecordPairs(rt, p[1..], true) == [];
    }
    SearchParamsOfQuery(rt, pairs);
    var q := Encode(rt, Some(p), true).value;
    assert SearchParams(rt, q) == pairs;
    assert GetAll(pairs, key) == [joined];
    assert Has(pairs, key) by { assert pairs[0].0 == key; }
    var d := [(key, List(default))];
    var r := DecodeParams(rt, pairs, d);
    assert r[0].1 == DecodeValue(rt, List(default), [joined]);
    assert StrItems([joined]) == [StrItem(joined)];
    assert r == [(key, List([StrItem(joined)]))];
  }

  /** With `queryToParams` corrected to keep `false`, a record of booleans
      read back against boolean defaults with the same keys is the record
      itself, `false` values included. */
  lemma BooleansRoundTripKeepingFalse(rt: Runtime, p: Record, defaults: Record)
    requires WireInverse(rt)
    requires DistinctKeys(p)
    requires forall i :: 0 <= i < |p| ==> p[i].1.Bool?
    requires |defaults| == |p|
    requires forall i :: 0 <= i < |p| ==> defaults[i].0 == p[i].0 && defaults[i].1.Bool?
    ensures EncodeKeepingFalse(rt, p, false).Normal?
    ensures ParseUrlParams(rt, EncodeKeepingFalse(rt, p, false).value, defaults) == p
  {
    var kept := KeepFalseRecord(p);
    assert DistinctKeys(kept);
    EncodeWritesPairs(rt, kept, false);
    var pairs := RecordPairs(rt, kept, false);
    SearchParamsOfQuery(rt, pairs);
    var r := ParseUrlParams(rt, EncodeKeepingFalse(rt, p, false).value, defaults);
    assert r == DecodeParams(rt, pairs, defaults);
    forall i | 0 <= i < |p|
      ensures r[i] == p[i]
    {
      GetAllOfKey(rt, kept, false, i);
      assert kept[i] == (p[i].0, KeepFalse(p[i].1));
      var values := GetAll(pairs, p[i].0);
      DecodeKeptBool(rt, p[i].1.b, defaults[i].1.b);
      assert values == WrittenValues(rt, KeepFalse(p[i].1), false);
      assert Has(pairs, defaults[i].0);
    }
  }

  /** A boolean written by the corrected encoder reads back as itself
      against a boolean default. */
  lemma DecodeKeptBool(rt: Runtime, b: bool, default: bool)
    ensures WrittenValues(rt, KeepFalse(Bool(b)), false) == [if b then "true" else "false"]
    ensures DecodeValue(rt, Bool(default), WrittenValues(rt, KeepFalse(Bool(b)), false)) == Bool(b)
  {
    if b {
      LowerTrue();
    } else {
      assert |AsciiLower("false")| == 5;
    }
  }
}
