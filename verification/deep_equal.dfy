/** The structural comparison `isDeepEqual` of the query-parameter hook, on
    JavaScript values. */
module DeepEqual {
  import opened Js

  /** A JavaScript value as `isDeepEqual` sees it: primitives, and objects
      through their enumerable own keys. A `Date` has no enumerable own key. */
  datatype JsVal =
    | Undefined
    | Null
    | JBool(b: bool)
    | JNum(n: JsNumber)
    | JStr(s: string)
    | JDate(d: JsDate)
    | JArray(elems: seq<JsVal>)
    | JObject(props: seq<(string, JsVal)>)

  /** An enumerable own key: an array index or a property name. */
  datatype Key = Index(i: nat) | Prop(name: string)

  /** `typeof v === "object" && v !== null`. */
  predicate IsObject(v: JsVal) {
    v.JDate? || v.JArray? || v.JObject?
  }

  /** `a === b`. Two object values are modelled as two distinct references, so
      `===` never holds between objects. */
  predicate StrictEquals(a: JsVal, b: JsVal) {
    match (a, b)
    case (Undefined, Undefined) => true
    case (Null, Null) => true
    case (JBool(x), JBool(y)) => x == y
    case (JNum(x), JNum(y)) => NumberStrictEquals(x, y)
    case (JStr(x), JStr(y)) => x == y
    case _ => false
  }

  function IndexKeys(n: nat): (r: seq<Key>)
    ensures |r| == n
    ensures forall i :: 0 <= i < n ==> r[i] == Index(i)
  {
    if n == 0 then [] else IndexKeys(n - 1) + [Index(n - 1)]
  }

  function PropKeys(props: seq<(string, JsVal)>): (r: seq<Key>)
    ensures |r| == |props|
    ensures forall i :: 0 <= i < |props| ==> r[i] == Prop(props[i].0)
  {
    if props == [] then [] else [Prop(props[0].0)] + PropKeys(props[1..])
  }

  /** `Object.keys(v)`. */
  function Keys(v: JsVal): seq<Key> {
    match v
    case JArray(elems) => IndexKeys(|elems|)
    case JObject(props) => PropKeys(props)
    case _ => []
  }

  /** The position of the property called `name`. */
  function FirstProp(props: seq<(string, JsVal)>, name: string): (j: nat)
    requires Prop(name) in PropKeys(props)
    ensures j < |props| && props[j].0 == name
    ensures forall k :: 0 <= k < j ==> props[k].0 != name
  {
    if props[0].0 == name then 0 else 1 + FirstProp(props[1..], name)
  }

  /** `v[k]`: the value under an own key, `undefined` when there is none. */
  function Get(v: JsVal, k: Key): JsVal {
    match v
    case JArray(elems) => if k.Index? && k.i < |elems| then elems[k.i] else Undefined
    case JObject(props) =>
      if k.Prop? && Prop(k.name) in PropKeys(props) then props[FirstProp(props, k.name)].1 else Undefined
    case _ => Undefined
  }

  /** An own key of `a` names one of its elements or properties. */
  lemma OwnKey(a: JsVal, k: Key)
    requires k in Keys(a)
    ensures a.JArray? ==> k.Index? && k.i < |a.elems| && Get(a, k) == a.elems[k.i]
    ensures a.JObject? ==> k.Prop? && Prop(k.name) in PropKeys(a.props)
    ensures a.JObject? ==> Get(a, k) == a.props[FirstProp(a.props, k.name)].1
    ensures a.JArray? || a.JObject?
  {
  }

  /** `isDeepEqual(a, b)`. */
  function IsDeepEqual(a: JsVal, b: JsVal): bool
    decreases a, 1, 0
  {
    if StrictEquals(a, b) then true
    else if !IsObject(a) || !IsObject(b) then StrictEquals(a, b)
    else |Keys(a)| == |Keys(b)| && KeysMatch(a, b, Keys(a))
  }

  /** The loop over `keys1`: every key is a key of `b` and the values under it
      are deeply equal. */
  function KeysMatch(a: JsVal, b: JsVal, ks: seq<Key>): bool
    requires forall k <- ks :: k in Keys(a)
    decreases a, 0, |ks|
  {
    if ks == [] then true
    else if ks[0] !in Keys(b) then false
    else
      var k := ks[0];
      OwnKey(a, k);
      if !IsDeepEqual(Get(a, k), Get(b, k)) then false
      else KeysMatch(a, b, ks[1..])
  }

  /** A value JavaScript can actually hold and that `===` can recognise:
      property names are distinct and no NaN occurs anywhere. */
  predicate WellFormed(v: JsVal)
  {
    match v
    case JNum(n) => n != NaN
    case JArray(elems) => forall i :: 0 <= i < |elems| ==> WellFormed(elems[i])
    case JObject(props) =>
      && (forall i, j :: 0 <= i < j < |props| ==> props[i].0 != props[j].0)
      && (forall i :: 0 <= i < |props| ==> WellFormed(props[i].1))
    case _ => true
  }

  /** The loop over `keys1` succeeds exactly when every key is shared and
      its values compare deeply equal. */
  lemma {:induction false} KeysMatchAll(a: JsVal, b: JsVal, ks: seq<Key>)
    requires forall k <- ks :: k in Keys(a)
    ensures KeysMatch(a, b, ks) <==>
              forall k <- ks :: k in Keys(b) && IsDeepEqual(Get(a, k), Get(b, k))
    decreases |ks|
  {
    if ks != [] {
      KeysMatchAll(a, b, ks[1..]);
      assert forall k <- ks :: k == ks[0] || k in ks[1..];
    }
  }

  /** On two objects, `isDeepEqual` holds iff they have as many keys, every
      key of the first is a key of the second, and the values under each key
      are deeply equal. */
  lemma ObjectCase(a: JsVal, b: JsVal)
    requires IsObject(a) && IsObject(b)
    ensures IsDeepEqual(a, b) <==>
              && |Keys(a)| == |Keys(b)|
              && forall k <- Keys(a) :: k in Keys(b) && IsDeepEqual(Get(a, k), Get(b, k))
  {
    KeysMatchAll(a, b, Keys(a));
  }

  /** When either side is a primitive or null, `isDeepEqual` is `===`. */
  lemma PrimitiveCase(a: JsVal, b: JsVal)
    requires !IsObject(a) || !IsObject(b)
    ensures IsDeepEqual(a, b) <==> StrictEquals(a, b)
  {
  }

  /** Values that are `===` are deeply equal. */
  lemma StrictImpliesDeep(a: JsVal, b: JsVal)
    requires StrictEquals(a, b)
    ensures IsDeepEqual(a, b)
  {
  }

  /** Every well-formed value is deeply equal to itself. */
  lemma {:induction false} Reflexive(v: JsVal)
    requires WellFormed(v)
    ensures IsDeepEqual(v, v)
    decreases v
  {
    if IsObject(v) {
      forall k | k in Keys(v)
        ensures k in Keys(v) && IsDeepEqual(Get(v, k), Get(v, k))
      {
        OwnKey(v, k);
        if v.JArray? {
          Reflexive(v.elems[k.i]);
        } else {
          var props := v.props;
          var i :| 0 <= i < |props| && PropKeys(props)[i] == k;
          var j := FirstProp(props, k.name);
          assert i == j;
          Reflexive(props[i].1);
        }
      }
      KeysMatchAll(v, v, Keys(v));
    }
  }

  /** NaN is not deeply equal to itself: `isDeepEqual` falls back to `===`. */
  lemma NaNNotDeepEqual()
    ensures !IsDeepEqual(JNum(NaN), JNum(NaN))
  {
  }

  /** Any two Dates are deeply equal, whatever their time values: a Date has
      no enumerable own key. The same holds of a Date and an empty array. */
  lemma DatesAlwaysDeepEqual(d1: JsDate, d2: JsDate)
    ensures IsDeepEqual(JDate(d1), JDate(d2))
    ensures IsDeepEqual(JDate(d1), JArray([]))
  {
    assert Keys(JDate(d1)) == [];
    assert Keys(JArray([])) == [];
  }
}
