/** The pure logic of the dashboard page: the column switches kept in the
    URL, the grid width they select, and the guards on sending a chat
    message. */
module Dashboard {
  import opened Js
  import opened Strings
  import opened Schema
  import opened QueryCodec
  import QueryRoundTrip
  import Inbox
  import RowList

  /** The defaults the page passes to `useQueryParams` for its column
      switches, in declaration order. */
  const DefaultColumnSettings: Record := [
    ("showGuests", Bool(true)),
    ("showTasks", Bool(true)),
    ("showFAQ", Bool(true)),
    ("showPartners", Bool(false)),
    ("showProperties", Bool(false)),
    ("showTaskChat", Bool(true))
  ]

  /** The record has an entry called `column`. */
  predicate HasKey(settings: Record, column: string)
  {
    exists i :: 0 <= i < |settings| && settings[i].0 == column
  }

  /** `settings[column]`: the value under `column`, `undefined` when there is
      none. */
  function Lookup(settings: Record, column: string): (v: Value)
    ensures !HasKey(settings, column) ==> v == Undefined
  {
    if settings == [] then Undefined
    else if settings[0].0 == column then settings[0].1
    else Lookup(settings[1..], column)
  }

  /** In a record with distinct keys, looking a key up finds its entry. */
  lemma {:induction false} LookupAt(settings: Record, i: nat)
    requires DistinctKeys(settings)
    requires i < |settings|
    ensures Lookup(settings, settings[i].0) == settings[i].1
  {
    if i > 0 {
      assert settings[1..][i - 1] == settings[i];
      LookupAt(settings[1..], i - 1);
    }
  }

  /** Every entry called `column` gets the value `v`. */
  function ReplaceValue(settings: Record, column: string, v: Value): (r: Record)
    ensures |r| == |settings|
    ensures forall i :: 0 <= i < |settings| ==>
              r[i] == (settings[i].0, if settings[i].0 == column then v else settings[i].1)
  {
    if settings == [] then []
    else [(settings[0].0, if settings[0].0 == column then v else settings[0].1)]
         + ReplaceValue(settings[1..], column, v)
  }

  /** `{ ...settings, [column]: v }`: an existing key keeps its place and
      takes the new value, a new key goes last. */
  function Assign(settings: Record, column: string, v: Value): (r: Record)
  {
    if HasKey(settings, column) then ReplaceValue(settings, column, v) else settings + [(column, v)]
  }

  /** `toggleColumn(column)`: the setting of `column` becomes the negation of
      its truthiness, every other setting is unchanged, and the keys keep
      their order. A key the record lacks is read as `undefined` and so is
      added, switched on. */
  function ToggleColumn(settings: Record, column: string): (r: Record)
    requires DistinctKeys(settings)
    ensures DistinctKeys(r)
    ensures HasKey(settings, column) ==>
              |r| == |settings| && forall i :: 0 <= i < |settings| ==>
                r[i].0 == settings[i].0
                && r[i].1 == (if settings[i].0 == column then Bool(!Truthy(settings[i].1)) else settings[i].1)
    ensures !HasKey(settings, column) ==> r == settings + [(column, Bool(true))]
  {
    var r := Assign(settings, column, Bool(!Truthy(Lookup(settings, column))));
    forall i | 0 <= i < |settings| && settings[i].0 == column
      ensures Lookup(settings, column) == settings[i].1
    {
      LookupAt(settings, i);
    }
    r
  }

  /** Toggling a boolean column twice restores the settings. */
  lemma ToggleTwice(settings: Record, column: string)
    requires DistinctKeys(settings)
    requires forall i :: 0 <= i < |settings| ==> settings[i].1.Bool?
    ensures ToggleColumn(ToggleColumn(settings, column), column)
            == if HasKey(settings, column) then settings else settings + [(column, Bool(false))]
  {
    var once := ToggleColumn(settings, column);
    var twice := ToggleColumn(once, column);
    if HasKey(settings, column) {
      var i :| 0 <= i < |settings| && settings[i].0 == column;
      assert once[i].0 == column;
      assert |twice| == |settings|;
      forall j | 0 <= j < |settings|
        ensures twice[j] == settings[j]
      {
      }
    } else {
      assert once[|settings|].0 == column;
      assert HasKey(once, column);
      forall j | 0 <= j < |twice|
        ensures twice[j] == (settings + [(column, Bool(false))])[j]
      {
        if j < |settings| {
          assert settings[j].0 != column;
        }
      }
    }
  }

  /** `Object.values(settings).filter(Boolean).length`. */
  function VisibleColumns(settings: Record): (n: nat)
    ensures n <= |settings|
  {
    if settings == [] then 0
    else (if Truthy(settings[0].1) then 1 else 0) + VisibleColumns(settings[1..])
  }

  lemma {:induction false} VisibleAppend(a: Record, b: Record)
    ensures VisibleColumns(a + b) == VisibleColumns(a) + VisibleColumns(b)
  {
    if a != [] {
      assert (a + b)[1..] == a[1..] + b;
      VisibleAppend(a[1..], b);
    } else {
      assert a + b == b;
    }
  }

  /** Giving one entry of a record with distinct keys a new value changes the
      count by the difference of the two values' truthiness. */
  lemma {:induction false} VisibleReplace(settings: Record, i: nat, v: Value)
    requires DistinctKeys(settings)
    requires i < |settings|
    ensures VisibleColumns(ReplaceValue(settings, settings[i].0, v))
            == VisibleColumns(settings) - (if Truthy(settings[i].1) then 1 else 0) + (if Truthy(v) then 1 else 0)
  {
    var column := settings[i].0;
    var r := ReplaceValue(settings, column, v);
    assert r[1..] == ReplaceValue(settings[1..], column, v);
    if i == 0 {
      assert forall j :: 0 <= j < |settings[1..]| ==> settings[1..][j].0 != column;
      assert ReplaceValue(settings[1..], column, v) == settings[1..];
    } else {
      assert settings[0].0 != column;
      assert settings[1..][i - 1] == settings[i];
      VisibleReplace(settings[1..], i - 1, v);
    }
  }

  /** Toggling a column moves the visible count by exactly one: down when the
      column was shown, up when it was hidden or absent. */
  lemma ToggleVisibleCount(settings: Record, column: string)
    requires DistinctKeys(settings)
    ensures VisibleColumns(ToggleColumn(settings, column))
            == VisibleColumns(settings) + (if Truthy(Lookup(settings, column)) then -1 else 1)
  {
    if HasKey(settings, column) {
      var i :| 0 <= i < |settings| && settings[i].0 == column;
      LookupAt(settings, i);
      VisibleReplace(settings, i, Bool(!Truthy(settings[i].1)));
    } else {
      VisibleAppend(settings, [(column, Bool(true))]);
    }
  }

  /** The number of grid columns the page lays out for `visible` shown
      columns: as many as are shown, at least one and at most six. */
  function GridColumns(visible: nat): (n: nat)
    ensures 1 <= n <= 6
    ensures 1 <= visible <= 6 ==> n == visible
  {
    if visible == 0 then 1 else if visible > 6 then 6 else visible
  }

  /** `getGridClass()`: a switch over `Math.min(visibleColumns, 6)` with
      "grid-cols-1" as its default. */
  function GridClass(visible: nat): (r: string)
    ensures r == "grid-cols-" + [('0' as int + GridColumns(visible)) as char]
  {
    var n := if visible < 6 then visible else 6;
    if n == 1 then "grid-cols-1"
    else if n == 2 then "grid-cols-2"
    else if n == 3 then "grid-cols-3"
    else if n == 4 then "grid-cols-4"
    else if n == 5 then "grid-cols-5"
    else if n == 6 then "grid-cols-6"
    else "grid-cols-1"
  }

  /** With the default settings four columns show: Guests, Tasks, FAQ and
      Task Chat, and the grid has four columns. */
  lemma DefaultLayout()
    ensures DistinctKeys(DefaultColumnSettings)
    ensures VisibleColumns(DefaultColumnSettings) == 4
    ensures GridClass(VisibleColumns(DefaultColumnSettings)) == "grid-cols-4"
  {
    var d := DefaultColumnSettings;
    assert d[1..][1..][1..][1..][1..][1..] == [];
  }

  /** As written: hiding a shown column of boolean settings writes nothing
      for it, so reading the URL back against those settings as defaults
      gives them back unchanged, the column shown again. */
  lemma HiddenColumnReturns(rt: Runtime, settings: Record, i: nat)
    requires QueryRoundTrip.WireInverse(rt)
    requires DistinctKeys(settings)
    requires forall j :: 0 <= j < |settings| ==> settings[j].1.Bool?
    requires i < |settings| && settings[i].1 == Bool(true)
    ensures var hidden := ToggleColumn(settings, settings[i].0);
            var q := Encode(rt, Some(hidden), false);
            && hidden[i] == (settings[i].0, Bool(false))
            && q.Normal?
            && ParseUrlParams(rt, q.value, settings) == settings
  {
    var hidden := ToggleColumn(settings, settings[i].0);
    HideShownColumn(settings, i);
    QueryRoundTrip.BooleansReadBack(rt, hidden, settings);
    var back := ParseUrlParams(rt, Encode(rt, Some(hidden), false).value, settings);
    assert |back| == |settings|;
    forall j | 0 <= j < |settings|
      ensures back[j] == settings[j]
    {
    }
  }

  /** Toggling a shown column sets it to `false` and leaves every other
      entry as it was. */
  lemma HideShownColumn(settings: Record, i: nat)
    requires DistinctKeys(settings)
    requires i < |settings| && settings[i].1 == Bool(true)
    ensures var hidden := ToggleColumn(settings, settings[i].0);
            && |hidden| == |settings|
            && forall j :: 0 <= j < |settings| ==>
                 hidden[j] == if j == i then (settings[i].0, Bool(false)) else settings[j]
  {
    assert HasKey(settings, settings[i].0);
  }

  /** On the dashboard: hiding the Guests column, which is shown by default,
      is lost on a reload, which gives the default layout with Guests shown. */
  lemma HiddenColumnReturnsOnReload(rt: Runtime)
    requires QueryRoundTrip.WireInverse(rt)
    ensures var hidden := ToggleColumn(DefaultColumnSettings, "showGuests");
            var q := Encode(rt, Some(hidden), false);
            && hidden[0] == ("showGuests", Bool(false))
            && q.Normal?
            && ParseUrlParams(rt, q.value, DefaultColumnSettings) == DefaultColumnSettings
  {
    DefaultsAreBooleans();
    assert DefaultColumnSettings[0] == ("showGuests", Bool(true));
    HiddenColumnReturns(rt, DefaultColumnSettings, 0);
  }

  /** The default settings are booleans under distinct keys. */
  lemma DefaultsAreBooleans()
    ensures DistinctKeys(DefaultColumnSettings)
    ensures forall i :: 0 <= i < |DefaultColumnSettings| ==> DefaultColumnSettings[i].1.Bool?
  {
  }

  /** With `queryToParams` corrected to keep `false`, toggling a column of
      boolean settings gives a layout that reads back from its URL, against
      those settings as defaults, unchanged. */
  lemma ToggledBooleansSurviveReload(rt: Runtime, settings: Record, column: string)
    requires QueryRoundTrip.WireInverse(rt)
    requires DistinctKeys(settings)
    requires forall i :: 0 <= i < |settings| ==> settings[i].1.Bool?
    requires HasKey(settings, column)
    ensures var toggled := ToggleColumn(settings, column);
            var q := EncodeKeepingFalse(rt, toggled, false);
            q.Normal? && ParseUrlParams(rt, q.value, settings) == toggled
  {
    var toggled := ToggleColumn(settings, column);
    assert |toggled| == |settings|;
    assert forall i :: 0 <= i < |settings| ==> toggled[i].0 == settings[i].0 && toggled[i].1.Bool?;
    QueryRoundTrip.BooleansRoundTripKeepingFalse(rt, toggled, settings);
  }

  /** With `queryToParams` corrected to keep `false`, any layout reached by
      toggling a default column reads back from its URL unchanged. */
  lemma ToggledLayoutSurvivesReload(rt: Runtime, column: string)
    requires QueryRoundTrip.WireInverse(rt)
    requires HasKey(DefaultColumnSettings, column)
    ensures var toggled := ToggleColumn(DefaultColumnSettings, column);
            var q := EncodeKeepingFalse(rt, toggled, false);
            q.Normal? && ParseUrlParams(rt, q.value, DefaultColumnSettings) == toggled
  {
    DefaultsAreBooleans();
    ToggledBooleansSurviveReload(rt, DefaultColumnSettings, column);
  }

  /** The row `addChatMessage` inserts: `booking_id` or `task_id`, the text,
      the sender and the source. */
  datatype NewChatMessage = NewChatMessage(
    bookingId: Option<string>,
    taskId: Option<string>,
    message: string,
    sender: ChatSender,
    source: ChatSource)

  /** `handleSendGuestMessage(message)`: nothing is sent when the message is
      blank after trimming or no booking is selected; otherwise the untrimmed
      text goes out from the user, through the app, for the selected
      booking. */
  function GuestMessage(message: string, selectedBookingId: Option<string>): (r: Option<NewChatMessage>)
    ensures r.Some? <==> HasVisibleChar(message) && Present(selectedBookingId)
    ensures r.Some? ==> r.value == NewChatMessage(selectedBookingId, None, message, UserSender, App)
  {
    TrimEmpty(message);
    if Trim(message) == "" || !Present(selectedBookingId) then None
    else Some(NewChatMessage(selectedBookingId, None, message, UserSender, App))
  }

  /** `handleSendPartnerMessage(message)`: nothing is sent when the message is
      blank after trimming or no task is selected; otherwise the untrimmed
      text goes out from the partner, through the app, for the selected
      task. */
  function PartnerMessage(message: string, selectedTaskId: Option<string>): (r: Option<NewChatMessage>)
    ensures r.Some? <==> HasVisibleChar(message) && Present(selectedTaskId)
    ensures r.Some? ==> r.value == NewChatMessage(None, selectedTaskId, message, PartnerSender, App)
  {
    TrimEmpty(message);
    if Trim(message) == "" || !Present(selectedTaskId) then None
    else Some(NewChatMessage(None, selectedTaskId, message, PartnerSender, App))
  }

  /** The database row stored for a sent message carries its fields. */
  predicate Stores(row: ChatMessage, sent: NewChatMessage)
  {
    && row.bookingId == sent.bookingId && row.taskId == sent.taskId
    && row.message == sent.message && row.sender == sent.sender && row.source == sent.source
  }

  /** A guest message the page sends shows up at the end of the open booking
      conversation when its INSERT comes back, and leaves the task
      conversation alone. */
  lemma SentGuestMessageShows(v: Inbox.ChatView, message: string, row: ChatMessage)
    requires GuestMessage(message, v.selectedBookingId).Some?
    requires Stores(row, GuestMessage(message, v.selectedBookingId).value)
    ensures Inbox.OnChatChange(v, RowList.Insert(row)).bookingChat == Some(Inbox.Messages(v.bookingChat) + [row])
    ensures Inbox.OnChatChange(v, RowList.Insert(row)).taskChat == v.taskChat
  {
  }

  /** A partner message the page sends shows up at the end of the open task
      conversation when its INSERT comes back, and leaves the booking
      conversation alone. */
  lemma SentPartnerMessageShows(v: Inbox.ChatView, message: string, row: ChatMessage)
    requires PartnerMessage(message, v.selectedTaskId).Some?
    requires Stores(row, PartnerMessage(message, v.selectedTaskId).value)
    ensures Inbox.OnChatChange(v, RowList.Insert(row)).taskChat == Some(Inbox.Messages(v.taskChat) + [row])
    ensures Inbox.OnChatChange(v, RowList.Insert(row)).bookingChat == v.bookingChat
  {
  }
}
