/** The typed query-string codec of the `useQueryParams` hook: `queryToParams`
    writes a record of parameters as a query string, `URLSearchParams` reads
    a query string as a list of name-value pairs, and `parseUrlParams` rebuilds
    the record from that list and a record of default values. */
module QueryCodec {
  import opened Js
  import opened Strings

  /** One element of a `string[]` or `number[]` parameter. */
  datatype Item = StrItem(s: string) | NumItem(n: JsNumber)

  /** A parameter value: the union of types the hook accepts for a key. */
  datatype Value =
    | Undefined
    | Null
    | Text(s: string)
    | Num(n: JsNumber)
    | Bool(b: bool)
    | Date(d: JsDate)
    | List(items: seq<Item>)

  /** A parameter record, its entries in `Object.keys` order. */
  type Record = seq<(string, Value)>

  /** The name-value list of a `URLSearchParams` object. */
  type NameValueList = seq<(string, string)>

  /** The keys of a JavaScript object are distinct. */
  predicate DistinctKeys(r: Record)
  {
    forall i, j :: 0 <= i < j < |r| ==> r[i].0 != r[j].0
  }

  /** `!!v`. Every object, a Date or an array included, is truthy. */
  predicate Truthy(v: Value)
  {
    match v
    case Undefined => false
    case Null => false
    case Text(s) => s != ""
    case Num(n) => NumberTruthy(n)
    case Bool(b) => b
    case Date(_) => true
    case List(_) => true
  }

  /** Whether `queryToParams` keeps a key: its value is truthy and, when it
      is an array, non-empty. */
  predicate Emitted(v: Value)
  {
    Truthy(v) && (v.List? ==> |v.items| > 0)
  }

  /** Whether writing `v` throws: `toISOString` throws a RangeError on an
      invalid Date. */
  predicate Throws(v: Value)
  {
    v == Date(InvalidDate)
  }

  /** `String(item)`. */
  function ItemText(rt: Runtime, item: Item): string
  {
    match item
    case StrItem(s) => s
    case NumItem(n) => rt.numberToString(n)
  }

  function ItemTexts(rt: Runtime, items: seq<Item>): (r: seq<string>)
    ensures |r| == |items|
    ensures forall i :: 0 <= i < |items| ==> r[i] == ItemText(rt, items[i])
  {
    if items == [] then [] else [ItemText(rt, items[0])] + ItemTexts(rt, items[1..])
  }

  /** The text `queryToParams` percent-encodes as the value of a kept key in
      one pair: `toISOString()` of a Date, `join(",")` of an array, `String(v)`
      of anything else. */
  function ValueText(rt: Runtime, v: Value): string
    requires !Throws(v)
  {
    match v
    case Undefined => "undefined"
    case Null => "null"
    case Text(s) => s
    case Num(n) => rt.numberToString(n)
    case Bool(b) => if b then "true" else "false"
    case Date(d) => rt.dateToIso(d.time)
    case List(items) => Join(ItemTexts(rt, items), ',')
  }

  /** `encodeURIComponent(name) + "=" + encodeURIComponent(value)`. */
  function PairText(rt: Runtime, pair: (string, string)): string
  {
    rt.encodeComponent(pair.0) + "=" + rt.encodeComponent(pair.1)
  }

  function PairTexts(rt: Runtime, pairs: NameValueList): (r: seq<string>)
    ensures |r| == |pairs|
    ensures forall i :: 0 <= i < |pairs| ==> r[i] == PairText(rt, pairs[i])
  {
    if pairs == [] then [] else [PairText(rt, pairs[0])] + PairTexts(rt, pairs[1..])
  }

  /** One pair per element of an array, in element order. */
  function ItemPairs(rt: Runtime, key: string, items: seq<Item>): (r: NameValueList)
    ensures |r| == |items|
    ensures forall i :: 0 <= i < |items| ==> r[i] == (key, ItemText(rt, items[i]))
  {
    if items == [] then [] else [(key, ItemText(rt, items[0]))] + ItemPairs(rt, key, items[1..])
  }

  /** What the `.map` callback of `queryToParams` returns for a kept key. */
  function Chunk(rt: Runtime, key: string, v: Value, commaMode: bool): Completion<string>
  {
    if Throws(v) then Abrupt("RangeError")
    else if v.List? && !commaMode then Normal(Join(PairTexts(rt, ItemPairs(rt, key, v.items)), '&'))
    else Normal(PairText(rt, (key, ValueText(rt, v))))
  }

  /** The `.filter(...).map(...)` of `queryToParams` over the keys of a record. */
  function Chunks(rt: Runtime, search: Record, commaMode: bool): (r: Completion<seq<string>>)
    ensures r.Abrupt? <==> exists i :: 0 <= i < |search| && Throws(search[i].1)
    ensures (forall i :: 0 <= i < |search| ==> !Emitted(search[i].1)) ==> r == Normal([])
  {
    if search == [] then Normal([])
    else
      var rest := Chunks(rt, search[1..], commaMode);
      assert forall i :: 0 < i < |search| ==> search[i] == search[1..][i - 1];
      if !Emitted(search[0].1) then rest
      else match Chunk(rt, search[0].0, search[0].1, commaMode)
        case Abrupt(e) => Abrupt(e)
        case Normal(c) =>
          match rest
          case Abrupt(e) => Abrupt(e)
          case Normal(cs) => Normal([c] + cs)
  }

  /** `queryToParams(search, separateListByComma)`. It throws only on an
      invalid Date, and writes nothing when no key is kept. */
  function Encode(rt: Runtime, search: Option<Record>, commaMode: bool): (r: Completion<string>)
    ensures search.None? ==> r == Normal("")
    ensures r.Abrupt? <==> search.Some? && exists i :: 0 <= i < |search.value| && Throws(search.value[i].1)
    ensures search.Some? && (forall i :: 0 <= i < |search.value| ==> !Emitted(search.value[i].1)) ==>
              r == Normal("")
    ensures r.Normal? && r.value != "" ==> r.value[0] == '?'
  {
    if search.None? then Normal("")
    else
      match Chunks(rt, search.value, commaMode)
      case Abrupt(e) => Abrupt(e)
      case Normal(params) => Normal(if |params| > 0 then "?" + Join(params, '&') else "")
  }

  /** The name-value pairs a kept key is written as, before percent-encoding:
      one per element of an array unless arrays are comma-joined, one
      otherwise; none for an omitted key. */
  function KeyPairs(rt: Runtime, key: string, v: Value, commaMode: bool): NameValueList
    requires !Throws(v)
  {
    if !Emitted(v) then []
    else if v.List? && !commaMode then ItemPairs(rt, key, v.items)
    else [(key, ValueText(rt, v))]
  }

  /** The name-value pairs a whole record is written as, key after key. */
  function RecordPairs(rt: Runtime, r: Record, commaMode: bool): NameValueList
    requires forall i :: 0 <= i < |r| ==> !Throws(r[i].1)
  {
    if r == [] then []
    else KeyPairs(rt, r[0].0, r[0].1, commaMode) + RecordPairs(rt, r[1..], commaMode)
  }

  /** A name-value list written out as a query string: empty for no pairs,
      otherwise '?' and the percent-encoded pairs joined by '&'. */
  function QueryOf(rt: Runtime, pairs: NameValueList): string
  {
    if pairs == [] then "" else "?" + Join(PairTexts(rt, pairs), '&')
  }

  /** `new URLSearchParams(search)`: one leading '?' is dropped and the rest
      is parsed as application/x-www-form-urlencoded (section 5.1 of the
      WHATWG URL Standard). */
  function SearchParams(rt: Runtime, search: string): NameValueList
  {
    var input := if |search| > 0 && search[0] == '?' then search[1..] else search;
    ParseSequences(rt, Split(input, '&'))
  }

  /** The parser's loop over the '&'-separated sequences: empty ones are
      skipped. */
  function ParseSequences(rt: Runtime, sequences: seq<string>): (r: NameValueList)
    ensures |r| <= |sequences|
  {
    if sequences == [] then []
    else (if sequences[0] == "" then [] else [ParsePair(rt, sequences[0])])
         + ParseSequences(rt, sequences[1..])
  }

  /** One sequence: the name runs up to the first '=', the value after it; with
      no '=' the value is empty. Both are then form-decoded. */
  function ParsePair(rt: Runtime, bytes: string): (string, string)
  {
    if '=' in bytes then
      var i := IndexOf(bytes, '=');
      (rt.formDecode(bytes[..i]), rt.formDecode(bytes[i + 1..]))
    else (rt.formDecode(bytes), "")
  }

  /** `searchParams.has(name)`. */
  predicate Has(list: NameValueList, name: string)
  {
    exists i :: 0 <= i < |list| && list[i].0 == name
  }

  /** `searchParams.getAll(name)`: the values of the pairs called `name`, in
      order. */
  function GetAll(list: NameValueList, name: string): (r: seq<string>)
    ensures |r| > 0 <==> Has(list, name)
    ensures |r| <= |list|
  {
    if list == [] then []
    else
      assert forall i :: 0 < i < |list| ==> list[i] == list[1..][i - 1];
      (if list[0].0 == name then [list[0].1] else []) + GetAll(list[1..], name)
  }

  /** The branch `parseUrlParams` takes for a key, chosen from the runtime
      type of its default value: `Array.isArray`, then `typeof` number or
      boolean, then `instanceof Date`; anything else, null and undefined
      included, is read as text. */
  datatype Kind = ArrayKind | NumberKind | BooleanKind | DateKind | TextKind

  function KindOf(v: Value): Kind
  {
    match v
    case List(_) => ArrayKind
    case Num(_) => NumberKind
    case Bool(_) => BooleanKind
    case Date(_) => DateKind
    case _ => TextKind
  }

  function StrItems(values: seq<string>): (r: seq<Item>)
    ensures |r| == |values|
    ensures forall i :: 0 <= i < |values| ==> r[i] == StrItem(values[i])
  {
    if values == [] then [] else [StrItem(values[0])] + StrItems(values[1..])
  }

  /** How `parseUrlParams` reads a key present in the URL: all its values for
      an array default, `Number` of the first value for a number,
      case-insensitive comparison of the first value with "true" for a
      boolean, `new Date` of the first value for a Date, and the first value
      itself otherwise. The result has the kind of the default. */
  function DecodeValue(rt: Runtime, default: Value, values: seq<string>): (r: Value)
    requires |values| > 0
    ensures KindOf(r) == KindOf(default)
  {
    var value := values[0];
    match KindOf(default)
    case ArrayKind => List(StrItems(values))
    case NumberKind => Num(rt.stringToNumber(value))
    case BooleanKind => Bool(AsciiLower(value) == "true")
    case DateKind => Date(rt.parseDate(value))
    case TextKind => Text(value)
  }

  /** `parseUrlParams` on a parsed query: the defaults' keys, in their order,
      each read from the list when present and left at its default when not. */
  function DecodeParams(rt: Runtime, list: NameValueList, defaults: Record): (r: Record)
    ensures |r| == |defaults|
    ensures forall i :: 0 <= i < |r| ==> r[i].0 == defaults[i].0
    ensures forall i :: 0 <= i < |r| ==> KindOf(r[i].1) == KindOf(defaults[i].1)
    ensures forall i :: 0 <= i < |r| && !Has(list, defaults[i].0) ==> r[i].1 == defaults[i].1
    ensures forall i :: 0 <= i < |r| && Has(list, defaults[i].0) ==>
              r[i].1 == DecodeValue(rt, defaults[i].1, GetAll(list, defaults[i].0))
  {
    if defaults == [] then []
    else
      var key := defaults[0].0;
      var values := GetAll(list, key);
      var v := if !Has(list, key) then defaults[0].1 else DecodeValue(rt, defaults[0].1, values);
      var rest := DecodeParams(rt, list, defaults[1..]);
      assert forall i :: 0 < i < |defaults| ==> defaults[i] == defaults[1..][i - 1];
      [(key, v)] + rest
  }

  /** `parseUrlParams()` with `window.location.search` and the defaults. */
  function ParseUrlParams(rt: Runtime, search: string, defaults: Record): Record
  {
    DecodeParams(rt, SearchParams(rt, search), defaults)
  }

  /** A `false` boolean as a `queryToParams` that keeps booleans would write
      it: `String(false)`, the text "false"; every other value as it is. */
  function KeepFalse(v: Value): (r: Value)
    ensures Emitted(r) <==> Emitted(v) || v == Bool(false)
    ensures Throws(r) <==> Throws(v)
    ensures !Throws(v) ==> forall rt: Runtime :: ValueText(rt, r) == ValueText(rt, v)
  {
    if v == Bool(false) then Text("false") else v
  }

  function KeepFalseRecord(p: Record): (r: Record)
    ensures |r| == |p|
    ensures forall i :: 0 <= i < |p| ==> r[i] == (p[i].0, KeepFalse(p[i].1))
  {
    if p == [] then [] else [(p[0].0, KeepFalse(p[0].1))] + KeepFalseRecord(p[1..])
  }

  /** `queryToParams` corrected to keep boolean values whether true or false:
      a `false` is written as "false" instead of being dropped. */
  function EncodeKeepingFalse(rt: Runtime, search: Record, commaMode: bool): (r: Completion<string>)
    ensures r.Abrupt? <==> exists i :: 0 <= i < |search| && Throws(search[i].1)
  {
    var kept := KeepFalseRecord(search);
    assert forall i :: 0 <= i < |search| ==> (Throws(kept[i].1) <==> Throws(search[i].1));
    Encode(rt, Some(kept), commaMode)
  }

  /** A query with a single name-value pair, neither holding '&' or '=',
      parses to that pair, form-decoded. */
  lemma {:induction false} OnePair(rt: Runtime, name: string, value: string)
    requires '&' !in name && '&' !in value && '=' !in name
    ensures SearchParams(rt, "?" + name + "=" + value) == [(rt.formDecode(name), rt.formDecode(value))]
  {
    var q := "?" + name + "=" + value;
    var body := name + "=" + value;
    assert q[1..] == body;
    assert '&' !in body;
    assert Split(body, '&') == [body];
    IndexOfAfterPrefix(name, '=', value);
    assert body[..|name|] == name;
    assert body[|name| + 1..] == value;
    assert ParseSequences(rt, [body]) == [ParsePair(rt, body)];
  }

  /** A query "?name=text" whose name form-decodes to itself reads,
      against a one-key default record, as the decoded text read by the
      default's kind. */
  lemma OneKey(rt: Runtime, name: string, text: string, default: Value)
    requires rt.formDecode(name) == name
    requires '&' !in name && '=' !in name && '&' !in text
    ensures ParseUrlParams(rt, "?" + name + "=" + text, [(name, default)])
            == [(name, DecodeValue(rt, default, [rt.formDecode(text)]))]
  {
    OnePair(rt, name, text);
    var list := SearchParams(rt, "?" + name + "=" + text);
    assert list == [(name, rt.formDecode(text))];
    assert GetAll(list, name) == [rt.formDecode(text)];
    assert Has(list, name);
    var r := DecodeParams(rt, list, [(name, default)]);
    assert |r| == 1 && r[0].0 == name;
    assert r[0].1 == DecodeValue(rt, default, [rt.formDecode(text)]);
  }
}
