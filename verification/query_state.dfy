/** The state kept by the `useQueryParams` hook: the parameters it returns,
    the browser location, and the change suppression that decides whether a
    freshly decoded record replaces the current one. */
module QueryState {
  import opened Js
  import opened QueryCodec
  import DeepEqual

  function ItemToJs(item: Item): DeepEqual.JsVal
  {
    match item
    case StrItem(s) => DeepEqual.JStr(s)
    case NumItem(n) => DeepEqual.JNum(n)
  }

  function ItemsToJs(items: seq<Item>): (r: seq<DeepEqual.JsVal>)
    ensures |r| == |items|
    ensures forall i :: 0 <= i < |items| ==> r[i] == ItemToJs(items[i])
  {
    if items == [] then [] else [ItemToJs(items[0])] + ItemsToJs(items[1..])
  }

  /** A parameter value as the JavaScript value `isDeepEqual` receives. */
  function ValueToJs(v: Value): DeepEqual.JsVal
  {
    match v
    case Undefined => DeepEqual.Undefined
    case Null => DeepEqual.Null
    case Text(s) => DeepEqual.JStr(s)
    case Num(n) => DeepEqual.JNum(n)
    case Bool(b) => DeepEqual.JBool(b)
    case Date(d) => DeepEqual.JDate(d)
    case List(items) => DeepEqual.JArray(ItemsToJs(items))
  }

  function PropsOf(r: Record): (p: seq<(string, DeepEqual.JsVal)>)
    ensures |p| == |r|
    ensures forall i :: 0 <= i < |r| ==> p[i] == (r[i].0, ValueToJs(r[i].1))
  {
    if r == [] then [] else [(r[0].0, ValueToJs(r[0].1))] + PropsOf(r[1..])
  }

  /** A parameter record as a plain JavaScript object. */
  function RecordToJs(r: Record): DeepEqual.JsVal
  {
    DeepEqual.JObject(PropsOf(r))
  }

  /** No NaN occurs in the value. */
  predicate NaNFree(v: Value)
  {
    match v
    case Num(n) => n != NaN
    case List(items) => forall i :: 0 <= i < |items| ==> items[i] != NumItem(NaN)
    case _ => true
  }

  /** A record with distinct keys and no NaN is a well-formed JavaScript
      object. */
  lemma RecordWellFormed(r: Record)
    requires DistinctKeys(r)
    requires forall i :: 0 <= i < |r| ==> NaNFree(r[i].1)
    ensures DeepEqual.WellFormed(RecordToJs(r))
  {
    forall i | 0 <= i < |r|
      ensures DeepEqual.WellFormed(ValueToJs(r[i].1))
    {
      if r[i].1.List? {
        var items := r[i].1.items;
        assert forall j :: 0 <= j < |items| ==> DeepEqual.WellFormed(ItemsToJs(items)[j]);
      }
    }
  }

  /** The browser location the hook reads and writes. */
  datatype Location = Location(pathname: string, search: string)

  /** The URL a location stands for. */
  function Href(loc: Location): string
  {
    loc.pathname + loc.search
  }

  /** The hook's state: the parameters it returns (`params`), the value of
      `params` that the `popstate` listener closed over when it was
      registered at mount (`listenerParams`), the location, and
      `queryParamsLoaded`. */
  datatype HookState = HookState(params: Record, listenerParams: Record, location: Location, loaded: bool)

  /** The first render: `useState({ ...defaultValues })` and not yet loaded. */
  function Initial(defaults: Record, location: Location): HookState
  {
    HookState(defaults, defaults, location, false)
  }

  /** `parseAndSetParams` with `held` as the `params` its closure sees: the
      record decoded from the URL replaces the current one unless it is
      deeply equal to `held`. */
  function ParseAndSet(rt: Runtime, current: Record, held: Record, defaults: Record, search: string): (r: Record)
    ensures !DeepEqual.IsDeepEqual(RecordToJs(ParseUrlParams(rt, search, defaults)), RecordToJs(held)) ==>
              r == ParseUrlParams(rt, search, defaults)
    ensures DeepEqual.IsDeepEqual(RecordToJs(ParseUrlParams(rt, search, defaults)), RecordToJs(held)) ==>
              r == current
  {
    var decoded := ParseUrlParams(rt, search, defaults);
    if DeepEqual.IsDeepEqual(RecordToJs(decoded), RecordToJs(held)) then current else decoded
  }

  /** The mount effect: `parseAndSetParams` against the first render's
      `params`, then `queryParamsLoaded`, then the `popstate` listener, which
      keeps that same first-render `params` for the rest of the hook's life. */
  function Mount(rt: Runtime, st: HookState, defaults: Record): (r: HookState)
    ensures r.loaded
    ensures r.params == ParseAndSet(rt, st.params, st.params, defaults, st.location.search)
    ensures r.listenerParams == st.params && r.location == st.location
  {
    HookState(ParseAndSet(rt, st.params, st.params, defaults, st.location.search), st.params, st.location, true)
  }

  /** A back or forward navigation to `location`, handled by the listener
      registered at mount. */
  function OnPopState(rt: Runtime, st: HookState, defaults: Record, location: Location): (r: HookState)
    ensures r.params == ParseAndSet(rt, st.params, st.listenerParams, defaults, location.search)
    ensures r.location == location && r.listenerParams == st.listenerParams && r.loaded == st.loaded
  {
    st.(params := ParseAndSet(rt, st.params, st.listenerParams, defaults, location.search), location := location)
  }

  /** `setQueryParams(newParams)`: the URL becomes the current path followed
      by `queryToParams(newParams)` and the state becomes `newParams`; when
      encoding throws, nothing changes. */
  function SetQueryParams(rt: Runtime, st: HookState, newParams: Record): (r: Completion<HookState>)
    ensures r.Abrupt? <==> exists i :: 0 <= i < |newParams| && Throws(newParams[i].1)
    ensures r.Normal? ==>
              && r.value.params == newParams
              && Href(r.value.location) == st.location.pathname + Encode(rt, Some(newParams), false).value
              && r.value.location.pathname == st.location.pathname
              && r.value.listenerParams == st.listenerParams
              && r.value.loaded == st.loaded
  {
    match Encode(rt, Some(newParams), false)
    case Abrupt(e) => Abrupt(e)
    case Normal(query) => Normal(st.(params := newParams, location := Location(st.location.pathname, query)))
  }

  /** A record holding NaN under some key is never deeply equal to a record:
      `isDeepEqual` compares the NaN with `===`. */
  lemma NaNDefeatsSuppression(decoded: Record, held: Record, i: nat)
    requires DistinctKeys(decoded)
    requires i < |decoded| && decoded[i].1 == Num(NaN)
    ensures !DeepEqual.IsDeepEqual(RecordToJs(decoded), RecordToJs(held))
  {
    var a := RecordToJs(decoded);
    var b := RecordToJs(held);
    var k := DeepEqual.Prop(decoded[i].0);
    assert DeepEqual.Keys(a)[i] == k;
    var j := DeepEqual.FirstProp(a.props, decoded[i].0);
    assert j == i;
    assert DeepEqual.Get(a, k) == DeepEqual.JNum(NaN);
    DeepEqual.ObjectCase(a, b);
  }

  /** Re-reading an unchanged URL replaces nothing when the listener's record
      is the decoded one and holds no NaN. */
  lemma SuppressedWhenUnchanged(rt: Runtime, st: HookState, defaults: Record, location: Location)
    requires st.listenerParams == ParseUrlParams(rt, location.search, defaults)
    requires DistinctKeys(defaults)
    requires forall i :: 0 <= i < |st.listenerParams| ==> NaNFree(st.listenerParams[i].1)
    ensures OnPopState(rt, st, defaults, location).params == st.params
  {
    var decoded := st.listenerParams;
    assert DistinctKeys(decoded);
    RecordWellFormed(decoded);
    DeepEqual.Reflexive(RecordToJs(decoded));
  }

  /** As written, the listener compares against the first render's
      parameters. Mounted at a URL with no query, after the user switches a
      boolean parameter on, going back to that URL keeps the parameter on
      while the URL now decodes to the defaults. */
  lemma BackToDefaultsKeepsStaleParams(rt: Runtime, path: string)
    ensures var defaults := [("showPartners", Bool(false))];
            var toggled := [("showPartners", Bool(true))];
            var mounted := Mount(rt, Initial(defaults, Location(path, "")), defaults);
            var pushed := SetQueryParams(rt, mounted, toggled);
            && pushed.Normal?
            && ParseUrlParams(rt, "", defaults) == defaults
            && OnPopState(rt, pushed.value, defaults, Location(path, "")).params == toggled
  {
    var defaults := [("showPartners", Bool(false))];
    assert SearchParams(rt, "") == [] by {
      assert Strings.Split("", '&') == [""];
    }
    assert ParseUrlParams(rt, "", defaults) == defaults;
    RecordWellFormed(defaults);
    DeepEqual.Reflexive(RecordToJs(defaults));
  }

  /** Two one-key records holding Dates under the same key are deeply
      equal, whatever the Dates' time values. */
  lemma OneDateRecordsDeepEqual(key: string, d1: JsDate, d2: JsDate)
    ensures DeepEqual.IsDeepEqual(RecordToJs([(key, Date(d1))]), RecordToJs([(key, Date(d2))]))
  {
    var a := RecordToJs([(key, Date(d1))]);
    var b := RecordToJs([(key, Date(d2))]);
    DeepEqual.DatesAlwaysDeepEqual(d1, d2);
    DeepEqual.ObjectCase(a, b);
    assert DeepEqual.Keys(a) == [DeepEqual.Prop(key)];
    assert DeepEqual.Keys(b) == [DeepEqual.Prop(key)];
    assert DeepEqual.Get(a, DeepEqual.Prop(key)) == DeepEqual.JDate(d1);
    assert DeepEqual.Get(b, DeepEqual.Prop(key)) == DeepEqual.JDate(d2);
  }

  /** As written, any two Dates compare deeply equal, so a Date read from the
      URL at mount is dropped when every other key matches the defaults. */
  lemma DateFromUrlIgnoredAtMount(rt: Runtime, path: string, t: int)
    requires rt.formDecode("d") == "d"
    requires rt.parseDate(rt.formDecode("v")) == ValidDate(t) && t != 0
    ensures var defaults := [("d", Date(ValidDate(0)))];
            var mounted := Mount(rt, Initial(defaults, Location(path, "?d=v")), defaults);
            && ParseUrlParams(rt, "?d=v", defaults) == [("d", Date(ValidDate(t)))]
            && mounted.params == defaults
  {
    var defaults := [("d", Date(ValidDate(0)))];
    OneKey(rt, "d", "v", Date(ValidDate(0)));
    assert "?" + "d" + "=" + "v" == "?d=v";
    assert ParseUrlParams(rt, "?d=v", defaults) == [("d", Date(ValidDate(t)))];
    OneDateRecordsDeepEqual("d", ValidDate(t), ValidDate(0));
  }

  /** The suppression step with a comparison by value, in which two Dates
      are equal only when their time values are: the decoded record then
      replaces the state unless it already equals it, so the state always
      ends up equal to what the URL decodes to. */
  function ParseAndSetByValue(rt: Runtime, current: Record, defaults: Record, search: string): (r: Record)
    ensures r == ParseUrlParams(rt, search, defaults)
  {
    var decoded := ParseUrlParams(rt, search, defaults);
    if decoded == current then current else decoded
  }

  /** The mount effect with Dates compared by time value: a Date read from
      the URL is no longer dropped. */
  function MountFixed(rt: Runtime, st: HookState, defaults: Record): (r: HookState)
    ensures r.params == ParseUrlParams(rt, st.location.search, defaults)
    ensures r.loaded && r.location == st.location
  {
    HookState(ParseAndSetByValue(rt, st.params, defaults, st.location.search), st.params, st.location, true)
  }

  /** The `popstate` listener as evidently intended: it compares the new
      URL's record with the parameters the hook holds now, not with those of
      the first render. The state then follows the URL, up to `isDeepEqual`. */
  function OnPopStateFixed(rt: Runtime, st: HookState, defaults: Record, location: Location): (r: HookState)
    ensures !DeepEqual.IsDeepEqual(RecordToJs(ParseUrlParams(rt, location.search, defaults)), RecordToJs(st.params)) ==>
              r.params == ParseUrlParams(rt, location.search, defaults)
    ensures r.params == ParseUrlParams(rt, location.search, defaults) ||
              DeepEqual.IsDeepEqual(RecordToJs(ParseUrlParams(rt, location.search, defaults)), RecordToJs(r.params))
    ensures r.location == location && r.loaded == st.loaded
  {
    st.(params := ParseAndSet(rt, st.params, st.params, defaults, location.search), location := location)
  }

  /** Two one-key records holding different booleans under the same key are
      not deeply equal. */
  lemma OneBooleanRecordsDiffer(key: string, b: bool)
    ensures !DeepEqual.IsDeepEqual(RecordToJs([(key, Bool(b))]), RecordToJs([(key, Bool(!b))]))
  {
    var x := RecordToJs([(key, Bool(b))]);
    var y := RecordToJs([(key, Bool(!b))]);
    DeepEqual.ObjectCase(x, y);
    assert DeepEqual.Keys(x) == [DeepEqual.Prop(key)];
    assert DeepEqual.Keys(y) == [DeepEqual.Prop(key)];
    assert DeepEqual.Get(x, DeepEqual.Prop(key)) == DeepEqual.JBool(b);
    assert DeepEqual.Get(y, DeepEqual.Prop(key)) == DeepEqual.JBool(!b);
  }

  /** With the corrected listener, the navigation of
      `BackToDefaultsKeepsStaleParams` resets the state to the defaults. */
  lemma BackToDefaultsFollowsUrl(rt: Runtime, path: string)
    ensures var defaults := [("showPartners", Bool(false))];
            var toggled := [("showPartners", Bool(true))];
            var mounted := Mount(rt, Initial(defaults, Location(path, "")), defaults);
            var pushed := SetQueryParams(rt, mounted, toggled);
            && pushed.Normal?
            && OnPopStateFixed(rt, pushed.value, defaults, Location(path, "")).params == defaults
  {
    var defaults := [("showPartners", Bool(false))];
    assert SearchParams(rt, "") == [] by {
      assert Strings.Split("", '&') == [""];
    }
    assert ParseUrlParams(rt, "", defaults) == defaults;
    OneBooleanRecordsDiffer("showPartners", false);
  }
}
