# DigiHome dashboard core, modelled in Dafny

This project models the logic of a small property-management dashboard. The
dashboard is a React application on a Supabase database. The model covers
these parts:

- **The typed query-string codec** of the `useQueryParams` hook. `queryToParams`
  writes a record of parameters as a query string. `parseUrlParams` reads the
  record back, using a record of defaults to decide each key's type.
  `isDeepEqual` decides whether a freshly read record replaces the hook's state.
  The hook's mount effect, its `popstate` listener and `setQueryParams` are
  modelled as transitions on a `HookState`.
- **The realtime reducers** of `useFAQ(propertyId)`, `usePartners(taskType)`
  and `useProperties()`. They share one list update (INSERT prepends, UPDATE
  replaces by id, DELETE drops by id), which is modelled once, generically, in
  `RowList`. The FAQ and partner hooks put a filter in front of it.
- **The pure rules of `useInbox`.** These are:
  - the inbox list built from bookings and tasks, with its error cases;
  - the chat callback that appends a new message to the open booking or task
    conversation;
  - the filter choice and fallbacks of `fetchChatMessages`;
  - the selection change and the reloads it triggers.
- **The dashboard page.** `toggleColumn`, the visible-column count,
  `getGridClass`, and the guards of the two "send message" handlers.
- **The tasks column.** The badge variant and label of a task status, the
  selected task and the header count.

The JavaScript library functions the code calls are left uninterpreted, as
fields of `Js.Runtime`:

- `encodeURIComponent`;
- the form-urlencoded percent-decoding of `URLSearchParams`;
- `String(n)` and `Number(s)`;
- `toISOString` and `new Date(s)`.

Round trips are proved under ghost predicates that state what is assumed of
those functions: `QueryRoundTrip.WireInverse`, `QueryRoundTrip.NumbersReadBack`
and `QueryRoundTrip.DatesReadBack`. Database answers are parameters: a
`QueryResult` value, or a function from a query filter to a `QueryResult`.
Realtime events are `RowList.Change` values.

Modules, one per file:

- `Js`, `Strings`, `Schema`: JavaScript values, the string operations used,
  and the table rows.
- `DeepEqual`, `QueryCodec`, `QueryRoundTrip`, `QueryState`, `QueryExamples`:
  the query-parameter hook.
- `RowList`, `FaqFeed`, `PartnerFeed`, `PropertyFeed`: the realtime reducers.
- `Inbox`: the inbox rules.
- `Dashboard`, `TasksColumn`: the page and the tasks column.

### Behaviour worth noting

- `queryToParams` throws a RangeError on an invalid Date, because
  `toISOString` does. `QueryCodec.Encode` returns `Abrupt` exactly then.
- Any two Dates are deeply equal under `isDeepEqual`, because a Date has no
  enumerable own key (`DeepEqual.DatesAlwaysDeepEqual`).
- `null` and `undefined` differ under `===`, which is what `isDeepEqual`
  falls back to for them (`DeepEqual.StrictEquals`).

## Model

| member | source | states |
|---|---|---|
| QueryCodec.Encode | src/hooks/useQueryParams.ts:137-189 | no record gives ""; the result throws exactly when some value is an invalid Date; a record with no kept key gives ""; a non-empty result starts with '?' |
| QueryCodec.Chunks | src/hooks/useQueryParams.ts:155-181 | the filter-and-map over the keys throws exactly when some value is an invalid Date, and yields nothing when no value is truthy and non-empty |
| QueryCodec.GetAll | src/hooks/useQueryParams.ts:57-63 | `getAll(name)` is non-empty exactly when `has(name)` holds, and returns no more values than there are pairs |
| QueryCodec.DecodeValue | src/hooks/useQueryParams.ts:63-85 | a key present in the URL decodes to a value of the same kind as its default |
| QueryCodec.DecodeParams | src/hooks/useQueryParams.ts:52-89 | the result has the defaults' keys in their order; a key absent from the URL keeps its default; a present key is decoded from all its values by the default's kind |
| QueryCodec.KeepFalse | src/hooks/useQueryParams.ts:155-160 | writing `false` as the text "false" makes it kept, keeps every other value's kept-ness and throwing, and leaves the written text unchanged |
| QueryCodec.EncodeKeepingFalse | src/hooks/useQueryParams.ts:137-189 | the corrected encoder throws exactly when some value is an invalid Date |
| QueryRoundTrip.Restore | src/hooks/useQueryParams.ts:52-89 | the record expected back: each kept key's value reread, each omitted key at its default |
| QueryRoundTrip.ChunksArePairs | src/hooks/useQueryParams.ts:155-186 | without an invalid Date the chunks are, joined by '&', exactly the percent-encoded name-value pairs of the record |
| QueryRoundTrip.EncodeWritesPairs | src/hooks/useQueryParams.ts:137-189 | `queryToParams` writes exactly the record's name-value pairs: '?' and the encoded pairs joined by '&', or "" for none |
| QueryRoundTrip.ParsePairText | src/hooks/useQueryParams.ts:180 | `URLSearchParams` parses one encoded `name=value` back into the original pair |
| QueryRoundTrip.SearchParamsOfQuery | src/hooks/useQueryParams.ts:53 | `URLSearchParams` reads a written query string back as the name-value list it was written from |
| QueryRoundTrip.GetAllOfKey | src/hooks/useQueryParams.ts:164-172 | in the pairs written for a record with distinct keys, `getAll(key)` returns exactly the values written for that key, in order |
| QueryRoundTrip.DecodeWritten | src/hooks/useQueryParams.ts:63-85 | decoding what was written for a kept value against a default of its kind gives the value reread |
| QueryRoundTrip.RoundTrip | src/hooks/useQueryParams.ts:52-189 | decoding the encoding of a record with distinct keys and no invalid Date gives each kept key reread and each omitted key at its default |
| QueryRoundTrip.ScalarRoundTrip | src/hooks/useQueryParams.ts:52-189 | a record of kept text, number, boolean and Date values decodes back to itself when numbers and dates read back |
| QueryRoundTrip.RereadScalar | src/hooks/useQueryParams.ts:70-81 | a kept scalar rereads as itself when `Number(String(n))` and `new Date(toISOString())` are inverses |
| QueryRoundTrip.TextListRereads | src/hooks/useQueryParams.ts:67-69 | a text array reads back as the same array |
| QueryRoundTrip.NumberListRereadsAsText | src/hooks/useQueryParams.ts:67-69 | a number array reads back as an array of the numbers' texts, not numbers |
| QueryRoundTrip.BooleansReadBack | src/hooks/useQueryParams.ts:155-160 | a record of booleans reads back with each `true` kept and each `false` replaced by its default |
| QueryRoundTrip.BooleanRoundTrip | src/hooks/useQueryParams.ts:155-160 | a single boolean round-trips exactly when it is true or its default is false |
| QueryRoundTrip.CommaModeReadsOneElement | src/hooks/useQueryParams.ts:164-166 | in comma mode an array reads back as a one-element array holding the comma-joined text |
| QueryRoundTrip.BooleansRoundTripKeepingFalse | src/hooks/useQueryParams.ts:155-160 | with `false` kept, every record of booleans decodes back to itself |
| QueryRoundTrip.DecodeKeptBool | src/hooks/useQueryParams.ts:73-75 | with `false` kept, a boolean is written as "true" or "false" and decodes back to itself |
| QueryCodec.OnePair | src/hooks/useQueryParams.ts:53 | "?name=value" parses to the single decoded pair |
| QueryExamples.DefaultFallback | src/hooks/useQueryParams.ts:56-61 | "?b=2" against defaults a and b keeps a's default and reads b |
| QueryExamples.UpperCaseTrue | src/hooks/useQueryParams.ts:73-75 | "?flag=TRUE" decodes to true |
| QueryExamples.OtherTextFalse | src/hooks/useQueryParams.ts:73-75 | "?flag=yes" decodes to false |
| QueryCodec.OneKey | src/hooks/useQueryParams.ts:52-85 | "?name=text" against a one-key default record decodes the form-decoded text by the default's kind |
| QueryExamples.OneBoolean | src/hooks/useQueryParams.ts:73-75 | "?flag=" followed by a text decodes the text by the boolean rule |
| QueryExamples.MalformedNumber | src/hooks/useQueryParams.ts:70-72 | "?count=abc" against a number default decodes to NaN without error |
| QueryExamples.FalsyOmitted | src/hooks/useQueryParams.ts:155-160 | false, "", 0 and [] are all omitted, so the query is "" |
| QueryExamples.RepeatedKeyArray | src/hooks/useQueryParams.ts:168-172 | a text array is written as repeated keys and reads back in order |
| DeepEqual.ObjectCase | src/hooks/useQueryParams.ts:117-128 | on two objects, deep equality holds iff the key counts match and every key of the first is a key of the second with deeply equal values |
| DeepEqual.KeysMatchAll | src/hooks/useQueryParams.ts:122-126 | the key loop succeeds iff every key is shared and its values are deeply equal |
| DeepEqual.PrimitiveCase | src/hooks/useQueryParams.ts:108-115 | when either side is a primitive or null, deep equality is `===` |
| DeepEqual.StrictImpliesDeep | src/hooks/useQueryParams.ts:106 | values that are `===` are deeply equal |
| DeepEqual.Reflexive | src/hooks/useQueryParams.ts:105-129 | every value with distinct property names and no NaN is deeply equal to itself |
| DeepEqual.NaNNotDeepEqual | src/hooks/useQueryParams.ts:106-115 | NaN is not deeply equal to itself |
| DeepEqual.DatesAlwaysDeepEqual | src/hooks/useQueryParams.ts:117-128 | any two Dates, and a Date and an empty array, are deeply equal |
| QueryState.ParseAndSet | src/hooks/useQueryParams.ts:37-46 | a decoded record that is not deeply equal to the params the closure holds replaces the state; one that is deeply equal leaves the state as it was |
| QueryState.Mount | src/hooks/useQueryParams.ts:26-35 | the mount effect decodes the initial URL and compares it with the first render's params, sets `loaded`, keeps the location, and gives the listener the first render's params |
| QueryState.OnPopState | src/hooks/useQueryParams.ts:30 | a navigation decodes the new URL and compares it with the params held since mount, not the current ones; it sets the location and keeps the held params and `loaded` |
| QueryState.SetQueryParams | src/hooks/useQueryParams.ts:91-99 | throws exactly when a value is an invalid Date; otherwise the state becomes the new params and the URL becomes the path followed by the encoded query |
| QueryState.NaNDefeatsSuppression | src/hooks/useQueryParams.ts:43 | a decoded record holding NaN under a key is never deeply equal to the held record, so it always replaces the state |
| QueryState.SuppressedWhenUnchanged | src/hooks/useQueryParams.ts:43-45 | when the URL decodes to the NaN-free record the listener holds, the state is left alone |
| QueryState.BackToDefaultsKeepsStaleParams | src/hooks/useQueryParams.ts:30 | after switching a boolean on and going back to the default URL, the state keeps the switch on although the URL decodes to the defaults |
| QueryState.DateFromUrlIgnoredAtMount | src/hooks/useQueryParams.ts:26-46 | a URL Date different from the default Date is decoded, but the state at mount stays at the defaults |
| QueryState.ParseAndSetByValue | src/hooks/useQueryParams.ts:37-46 | compared by value, with Dates equal only at the same time value, the step always leaves the state equal to what the URL decodes to |
| QueryState.MountFixed | src/hooks/useQueryParams.ts:26-35 | with Dates compared by time value, the mount leaves the state equal to what the initial URL decodes to, Dates included |
| QueryState.OnPopStateFixed | src/hooks/useQueryParams.ts:30 | comparing with the current params, a navigation replaces the state by the new URL's record unless they are deeply equal, so the state always equals or is deeply equal to that record |
| QueryState.OneBooleanRecordsDiffer | src/hooks/useQueryParams.ts:117-128 | two one-key records with different booleans under the key are not deeply equal |
| QueryState.BackToDefaultsFollowsUrl | src/hooks/useQueryParams.ts:30 | with the corrected listener, going back to the default URL after switching a boolean on resets the state to the defaults |
| Strings.Split | src/hooks/useQueryParams.ts:53 | splitting on '&' gives parts without the separator that join back to the input |
| Strings.SplitJoin | src/hooks/useQueryParams.ts:183-186 | splitting a join of separator-free parts gives the parts back |
| Strings.AsciiLower | src/hooks/useQueryParams.ts:74 | lower-casing maps each character and keeps the length |
| Strings.ReplaceFirst | src/components/TasksColumn.tsx:57 | only the first occurrence of the pattern is replaced; without one the text is unchanged |
| Strings.TrimEmpty | src/components/Dashboard.tsx:58 | `trim()` is empty exactly when every character is white space |
| RowList.ReplaceById | src/hooks/useProperties.ts:88-93 | every row with the new row's id becomes the new row, and every other row stays in place |
| RowList.RemoveById | src/hooks/useProperties.ts:94-96 | the result holds exactly the rows with another id, and its length is reduced by the number of rows with that id |
| RowList.RemoveKeepsOrder | src/hooks/useProperties.ts:94-96 | the kept rows stay in order: each moves up by the number of removed rows before it |
| RowList.Apply | src/hooks/useProperties.ts:86-97 | INSERT prepends the row, UPDATE replaces by id, DELETE removes exactly the rows with the old id, and any other event changes nothing |
| RowList.DeleteUnknownIdUnchanged | src/hooks/useProperties.ts:94-96 | a DELETE for an id no row has leaves the list unchanged |
| RowList.DeleteUndoesInsert | src/hooks/useProperties.ts:86-96 | deleting the id of a just-inserted row is deleting it from the list before; with a new id the two events cancel |
| RowList.UpdateIdempotent | src/hooks/useProperties.ts:88-93 | applying the same UPDATE twice is applying it once |
| RowList.DeleteIdempotent | src/hooks/useProperties.ts:94-96 | applying the same DELETE twice is applying it once |
| RowList.RemoveKeepsDistinct | src/hooks/useProperties.ts:94-96 | dropping rows keeps primary keys distinct |
| RowList.KeepsDistinctIds | src/hooks/useProperties.ts:86-97 | every event keeps primary keys distinct, provided an INSERT brings a new key |
| RowList.ApplyFiltered | src/hooks/useFAQ.ts:93-104 | with no filter every event is applied; with a filter, an event whose new row has the filter value is applied, and a DELETE, an event without a new row, or a row of another value leaves the list unchanged |
| RowList.ApplyFilteredFixed | src/hooks/useFAQ.ts:93-104 | the corrected filter removes exactly the rows with the old id on DELETE and otherwise behaves as written |
| RowList.KeepsMatching | src/hooks/useFAQ.ts:93 | a list holding only rows that match the filter keeps doing so, as written and as corrected |
| FaqFeed.OnChange | src/hooks/useFAQ.ts:89-105 | with no property filter every event is applied; with one, an INSERT or UPDATE of another property's FAQ is ignored, and so is every DELETE |
| FaqFeed.DeleteKeptUnderFilter | src/hooks/useFAQ.ts:90-103 | with the filter set to a FAQ's property, deleting that FAQ leaves it in the list |
| FaqFeed.OnChangeFixed | src/hooks/useFAQ.ts:93-104 | the corrected callback removes exactly the rows with the old id on DELETE and otherwise behaves as written |
| FaqFeed.StaysWithinProperty | src/hooks/useFAQ.ts:26-28 | a list fetched for one property holds only that property's FAQs after any event, as written and as corrected |
| PartnerFeed.OnChange | src/hooks/usePartners.ts:89-106 | with no type filter every event is applied; with one, an INSERT or UPDATE of another type's partner is ignored, and so is every DELETE |
| PartnerFeed.DeleteKeptUnderFilter | src/hooks/usePartners.ts:90-104 | with the filter set to a partner's type, deleting that partner leaves it in the list |
| PartnerFeed.OnChangeFixed | src/hooks/usePartners.ts:93-105 | the corrected callback removes exactly the rows with the old id on DELETE and otherwise behaves as written |
| PartnerFeed.StaysWithinType | src/hooks/usePartners.ts:26-28 | a list fetched for one type holds only partners of that type after any event, as written and as corrected |
| PropertyFeed.OnChange | src/hooks/useProperties.ts:84-97 | INSERT puts the property first, UPDATE replaces by id in place, DELETE removes exactly the properties with the old id, and any other event changes nothing |
| PropertyFeed.UnknownIdUnchanged | src/hooks/useProperties.ts:88-96 | an UPDATE or DELETE for an id the list does not hold leaves it unchanged |
| Inbox.BuildInbox | src/hooks/useInbox.ts:93-112 | one entry per booking, then one per task, in fetch order; an entry is a booking entry exactly when it comes from the bookings |
| Inbox.FetchAllChats | src/hooks/useInbox.ts:61-113 | a bookings error is rethrown first, then a tasks error; the result is normal exactly when both queries succeed with data, and then it is the inbox list |
| Inbox.AppendTo | src/hooks/useInbox.ts:146-148 | appending to no conversation starts one; otherwise the message goes last |
| Inbox.OnChatChange | src/hooks/useInbox.ts:139-157 | only an INSERT changes anything; it is appended to the booking or task conversation exactly when its id is set and selected; the selection never changes |
| Inbox.OnChatChangeKeepsBelonging | src/hooks/useInbox.ts:144-156 | each open conversation keeps holding only its own messages |
| Inbox.ChooseFilter | src/hooks/useInbox.ts:477-483 | the booking id when set, else the task id when set, else no filter |
| Inbox.FetchChatMessages | src/hooks/useInbox.ts:471-493 | without a filter the result is empty; with one, an error or null data gives an empty list and data is returned as is |
| Inbox.SetSelectedChat | src/hooks/useInbox.ts:20-50 | the selection becomes the arguments; a conversation whose selection changed is reloaded when set and cleared when not; an unchanged one is kept |
| Inbox.SelectingKeepsBelonging | src/hooks/useInbox.ts:29-50 | when the database honours the filters, a selection change keeps each conversation holding only its own messages |
| Dashboard.Lookup | src/components/Dashboard.tsx:135 | a key the record lacks reads as `undefined` |
| Dashboard.ToggleColumn | src/components/Dashboard.tsx:132-137 | the toggled key becomes the negation of its truthiness, every other key is unchanged and in order; a missing key is added as true |
| Dashboard.ToggleTwice | src/components/Dashboard.tsx:132-137 | toggling a boolean column twice restores the settings |
| Dashboard.VisibleColumns | src/components/Dashboard.tsx:140 | the visible count never exceeds the number of settings |
| Dashboard.ToggleVisibleCount | src/components/Dashboard.tsx:132-140 | toggling moves the visible count down by one for a shown column and up by one otherwise |
| Dashboard.GridColumns | src/components/Dashboard.tsx:141-158 | the grid has between one and six columns, and exactly as many as are visible when that is between one and six |
| Dashboard.GridClass | src/components/Dashboard.tsx:141-158 | the class is "grid-cols-" followed by the grid's column count |
| Dashboard.DefaultLayout | src/components/Dashboard.tsx:46-53 | the default settings have distinct keys, show four columns and select "grid-cols-4" |
| Dashboard.HiddenColumnReturns | src/components/Dashboard.tsx:132-137 | hiding a shown column of boolean settings writes nothing for it, so reading the URL back against those settings gives them back with the column shown |
| Dashboard.HiddenColumnReturnsOnReload | src/components/Dashboard.tsx:132-137 | hiding Guests writes nothing for it, so reading the URL back gives the default settings with Guests shown |
| Dashboard.ToggledBooleansSurviveReload | src/components/Dashboard.tsx:132-137 | with `false` kept, toggling a column of any boolean settings gives a layout that reads back unchanged against those settings as defaults |
| Dashboard.ToggledLayoutSurvivesReload | src/components/Dashboard.tsx:132-137 | with `false` kept, any layout reached by toggling a default column reads back unchanged |
| Dashboard.GuestMessage | src/components/Dashboard.tsx:57-70 | a message is sent exactly when it has a non-space character and a booking is selected, untrimmed, from the user through the app |
| Dashboard.PartnerMessage | src/components/Dashboard.tsx:72-85 | a message is sent exactly when it has a non-space character and a task is selected, untrimmed, from the partner through the app |
| Dashboard.SentGuestMessageShows | src/components/Dashboard.tsx:57-66 | a sent guest message's INSERT is appended to the open booking conversation and leaves the task conversation alone |
| Dashboard.SentPartnerMessageShows | src/components/Dashboard.tsx:72-81 | a sent partner message's INSERT is appended to the open task conversation and leaves the booking conversation alone |
| TasksColumn.StatusBadgeVariant | src/components/TasksColumn.tsx:21-36 | in progress and completed give the default style, confirmed gives outline, cancelled gives destructive, and everything else, absence included, gives secondary; each case is an iff |
| TasksColumn.BadgeOfEachStatus | src/components/TasksColumn.tsx:21-36 | the variant of each of the five database statuses |
| TasksColumn.StatusLabel | src/components/TasksColumn.tsx:57 | an absent status has no label; otherwise the label has the same length, and only the first underscore becomes a space |
| TasksColumn.LabelOfEachStatus | src/components/TasksColumn.tsx:57 | the label of each of the five database statuses; "in_progress" shows as "in progress" |
| TasksColumn.LabelDropsOneUnderscore | src/components/TasksColumn.tsx:57 | a label has one underscore fewer and one space more than its status |
| TasksColumn.FindSelectedTask | src/components/TasksColumn.tsx:19 | the result is the first task with the selected id, or none exactly when there is no list or no such task |
| TasksColumn.SelectedTaskUnique | src/components/Dashboard.tsx:55 | with distinct task ids, the selected task is the only task with the selected id |
| TasksColumn.TaskCount | src/components/TasksColumn.tsx:39 | the count is the list's length, and zero exactly when there is no list or it is empty |

## Left out

- Network and database I/O are not modelled: Supabase queries, inserts, updates and deletes. Query answers are parameters of type `QueryResult`.
- The FAQ, partner and property hooks' insert, update and delete functions are not modelled. They only forward to the database, and their effect on the list arrives through the realtime callback, which is modelled.
- `fetchAllFAQs`, `fetchAllPartners` and `fetchAllProperties` are not modelled. Their `.eq` filter is used only as the precondition of `FaqFeed.StaysWithinProperty` and `PartnerFeed.StaysWithinType`.
- The server-side ordering by `created_at` is not modelled: the fetched order is taken as given.
- `addChatMessage` is not modelled: its insert and its webhook `fetch` are external calls. The row it sends is modelled as `Dashboard.NewChatMessage`. Its insert error is only logged.
- `clearAndSeedDatabase` in `useInbox.ts` is not modelled: it is a fixed sequence of database writes with no logic.
- The bookings and tasks subscriptions of `useInbox` are not modelled separately: each only re-runs `fetchAllChats`, which `Inbox.FetchAllChats` models.
- React scheduling is not modelled: effects, re-renders, the asynchronous ordering of `then` callbacks, and subscription setup and cleanup. `Inbox.SetSelectedChat` runs the two selection effects to completion at once.
- `useInbox`'s `inboxType` argument is not modelled, because the hook never reads it.
- `window.history.pushState` and the `popstate` event are modelled only through the location they set.
- Presentational components are not modelled (columns, chat view, dialogs), and neither are the task status `update` in `handleStatusChange` and the errors that handlers only log.
- `null` and `undefined` share `Js.Option.None` in row fields and message lists, where the code treats them alike. They are kept apart in `QueryCodec.Value` and `DeepEqual.JsVal`, where they differ.
- Negative zero is folded into zero: the code only observes numbers through `===`, truthiness and `String()`.
- DeepEqual.StrictEquals: object identity is not modelled, and `===` between two objects is taken as false. In the hook this differs from JavaScript when an array default holds NaN. For a key absent from the URL, `parseUrlParams` copies the default's own array reference, and the first render's params share it. Defaults `{ nums: [NaN], flag: false }`, `setQueryParams({ nums: [NaN], flag: true })` and then Back to "/" show it: JavaScript finds the records deeply equal through `===` on the shared array and keeps `flag: true`, while the model finds them unequal because of the NaN and resets `flag` to false.
- DeepEqual.Keys: array indices (`Index`) are kept apart from property names (`Prop`), while `Object.keys` gives both as strings. So the model finds `["a"]` and `{ "0": "a" }` unequal where `isDeepEqual` finds them equal. The hook never compares an array with a plain object.
- QueryCodec.DecodeValue: `toLowerCase()` is modelled for ASCII letters only (`Strings.AsciiLower`), so non-ASCII case mappings are left out.
- `encodeURIComponent`, percent-decoding, `String(n)`, `Number(s)`, `toISOString` and `new Date(s)` are uninterpreted. What the round trips need of them is stated as the ghost predicates listed above.
- QueryCodec.Encode: a lone surrogate, on which `encodeURIComponent` throws a URIError, is not modelled. The model only throws on an invalid Date.

## Findings

| source | as written | input that shows it | evidently intended | confidence | as-written member | corrected member |
|---|---|---|---|---|---|---|
| src/hooks/useQueryParams.ts:30 | the `popstate` listener is the mount-time `parseAndSetParams`, so it compares the new URL's record with the first render's `params` | defaults `{ showPartners: false }`, mount at "/", `setQueryParams({ showPartners: true })`, then Back to "/": the URL decodes to the defaults, which equal the stale held params, so the state stays `true` | the state follows the URL on every navigation | not executed | QueryState.BackToDefaultsKeepsStaleParams | QueryState.OnPopStateFixed |
| src/hooks/useQueryParams.ts:117-128 | `isDeepEqual` compares a Date through its enumerable own keys, and a Date has none, so any two Dates are equal | defaults `{ d: new Date(0) }` and URL "?d=v" where `v` parses to another time: the decoded record is dropped at mount | a Date read from the URL replaces the default, as with Dates compared by time value | not executed | QueryState.DateFromUrlIgnoredAtMount | QueryState.MountFixed |
| src/hooks/useFAQ.ts:93 | the property filter reads `payload.new`, which is empty for a DELETE, so with a filter set every DELETE is ignored | `useFAQ("p1")` holding a FAQ of "p1", then a DELETE event for that FAQ: it stays in the list | a DELETE removes the row whatever the filter | not executed | FaqFeed.DeleteKeptUnderFilter | FaqFeed.OnChangeFixed |
| src/hooks/usePartners.ts:93 | the type filter reads `payload.new`, which is empty for a DELETE, so with a filter set every DELETE is ignored | `usePartners("cleaning")` holding a cleaning partner, then a DELETE event for it: it stays in the list | a DELETE removes the row whatever the filter | not executed | PartnerFeed.DeleteKeptUnderFilter | PartnerFeed.OnChangeFixed |
| src/hooks/useQueryParams.ts:155-160 | `!!search[key]` drops every `false`, so a boolean whose default is `true` cannot be stored as `false` | on the dashboard, `toggleColumn("showGuests")` gives `showGuests: false`, which is written as nothing; on reload, Guests is shown again | the falsy omission is deliberate in the codec; the defect is the Dashboard storing default-true columns through it, and a hidden column should stay hidden on reload, as it does when `false` is written | not executed | Dashboard.HiddenColumnReturnsOnReload | Dashboard.ToggledLayoutSurvivesReload |
