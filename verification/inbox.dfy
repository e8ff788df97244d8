/** The pure rules of the `useInbox` hook: the inbox list built from the
    bookings and tasks, the realtime rule that appends a new chat message to
    the open conversation, and the choice of filter when loading a
    conversation. */
module Inbox {
  import opened Js
  import opened Schema
  import opened RowList

  datatype ChatKind = BookingChat | TaskChat

  /** An entry of the inbox. `bookingId` and `taskId` exist in the type but
      the inbox mapping never fills them. */
  datatype InboxChat = InboxChat(id: string, kind: ChatKind, title: string,
                                 bookingId: Option<string>, taskId: Option<string>)

  /** The inbox entry of a booking: its id, and the guest's name as title. */
  function BookingEntry(b: Booking): InboxChat
  {
    InboxChat(b.id, BookingChat, b.guestName, None, None)
  }

  /** The inbox entry of a task: its id, and its description as title. */
  function TaskEntry(t: Task): InboxChat
  {
    InboxChat(t.id, TaskChat, t.taskDescription, None, None)
  }

  /** The two `map` loops of `fetchAllChats` pushing onto one list: first one
      entry per booking, then one per task, each in the order fetched. */
  method BuildInbox(bookings: seq<Booking>, tasks: seq<Task>) returns (chats: seq<InboxChat>)
    ensures |chats| == |bookings| + |tasks|
    ensures forall i :: 0 <= i < |bookings| ==> chats[i] == BookingEntry(bookings[i])
    ensures forall j :: 0 <= j < |tasks| ==> chats[|bookings| + j] == TaskEntry(tasks[j])
    ensures forall i :: 0 <= i < |chats| ==> (chats[i].kind == BookingChat <==> i < |bookings|)
  {
    chats := [];
    var i := 0;
    while i < |bookings|
      invariant 0 <= i <= |bookings|
      invariant |chats| == i
      invariant forall k :: 0 <= k < i ==> chats[k] == BookingEntry(bookings[k])
    {
      chats := chats + [BookingEntry(bookings[i])];
      i := i + 1;
    }
    var j := 0;
    while j < |tasks|
      invariant 0 <= j <= |tasks|
      invariant |chats| == |bookings| + j
      invariant forall k :: 0 <= k < |bookings| ==> chats[k] == BookingEntry(bookings[k])
      invariant forall k :: 0 <= k < j ==> chats[|bookings| + k] == TaskEntry(tasks[k])
    {
      chats := chats + [TaskEntry(tasks[j])];
      j := j + 1;
    }
    assert forall k :: |bookings| <= k < |chats| ==> chats[k] == TaskEntry(tasks[k - |bookings|]);
  }

  /** `fetchAllChats()` given what the bookings and tasks queries return. A
      query error is rethrown, the bookings query's first; a query that
      returns null data makes its `.map` throw a TypeError. */
  method FetchAllChats(bookingsResult: QueryResult<Booking>, tasksResult: QueryResult<Task>)
    returns (r: Completion<seq<InboxChat>>)
    ensures bookingsResult.error.Some? ==> r == Abrupt(bookingsResult.error.value)
    ensures bookingsResult.error.None? && tasksResult.error.Some? ==> r == Abrupt(tasksResult.error.value)
    ensures r.Normal? <==>
              && bookingsResult.error.None? && bookingsResult.data.Some?
              && tasksResult.error.None? && tasksResult.data.Some?
    ensures r.Normal? ==>
              && |r.value| == |bookingsResult.data.value| + |tasksResult.data.value|
              && (forall i :: 0 <= i < |bookingsResult.data.value| ==>
                    r.value[i] == BookingEntry(bookingsResult.data.value[i]))
              && (forall j :: 0 <= j < |tasksResult.data.value| ==>
                    r.value[|bookingsResult.data.value| + j] == TaskEntry(tasksResult.data.value[j]))
  {
    if bookingsResult.error.Some? {
      return Abrupt(bookingsResult.error.value);
    }
    if tasksResult.error.Some? {
      return Abrupt(tasksResult.error.value);
    }
    if bookingsResult.data.None? || tasksResult.data.None? {
      return Abrupt("TypeError");
    }
    var chats := BuildInbox(bookingsResult.data.value, tasksResult.data.value);
    return Normal(chats);
  }

  /** The messages of a conversation, `prev` read as a list: null and
      undefined are read as no messages. */
  function Messages(prev: Option<seq<ChatMessage>>): seq<ChatMessage>
  {
    if prev.Some? then prev.value else []
  }

  /** Whether a message's booking or task id selects it for the open
      conversation: `id && id === selected`. */
  predicate Belongs(messageId: Option<string>, selected: Option<string>)
  {
    Present(messageId) && messageId == selected
  }

  /** The conversations the hook keeps open: the selected booking and task
      and the messages loaded for each (`null` when nothing is selected). */
  datatype ChatView = ChatView(
    selectedBookingId: Option<string>,
    selectedTaskId: Option<string>,
    bookingChat: Option<seq<ChatMessage>>,
    taskChat: Option<seq<ChatMessage>>)

  /** `prev ? [...prev, message] : [message]`. */
  function AppendTo(prev: Option<seq<ChatMessage>>, message: ChatMessage): (r: Option<seq<ChatMessage>>)
    ensures r == Some(Messages(prev) + [message])
  {
    if prev.Some? then Some(prev.value + [message])
    else
      assert [] + [message] == [message];
      Some([message])
  }

  /** The callback of the chat subscription. Only an INSERT does anything:
      the new message is appended to the booking conversation when its
      `booking_id` is set and is the selected booking, and to the task
      conversation when its `task_id` is set and is the selected task. */
  function OnChatChange(v: ChatView, change: Change<ChatMessage>): (r: ChatView)
    ensures !change.Insert? ==> r == v
    ensures r.selectedBookingId == v.selectedBookingId && r.selectedTaskId == v.selectedTaskId
    ensures change.Insert? && Belongs(change.row.bookingId, v.selectedBookingId) ==>
              r.bookingChat == Some(Messages(v.bookingChat) + [change.row])
    ensures !(change.Insert? && Belongs(change.row.bookingId, v.selectedBookingId)) ==>
              r.bookingChat == v.bookingChat
    ensures change.Insert? && Belongs(change.row.taskId, v.selectedTaskId) ==>
              r.taskChat == Some(Messages(v.taskChat) + [change.row])
    ensures !(change.Insert? && Belongs(change.row.taskId, v.selectedTaskId)) ==>
              r.taskChat == v.taskChat
  {
    match change
    case Insert(m) =>
      var bookingChat := if Belongs(m.bookingId, v.selectedBookingId) then AppendTo(v.bookingChat, m) else v.bookingChat;
      var taskChat := if Belongs(m.taskId, v.selectedTaskId) then AppendTo(v.taskChat, m) else v.taskChat;
      v.(bookingChat := bookingChat, taskChat := taskChat)
    case _ => v
  }

  /** Every message shown in a conversation belongs to it: the booking
      conversation holds messages of the selected booking only, and the task
      conversation messages of the selected task only. */
  predicate ChatsBelong(v: ChatView)
  {
    && (forall i :: 0 <= i < |Messages(v.bookingChat)| ==> Messages(v.bookingChat)[i].bookingId == v.selectedBookingId)
    && (forall i :: 0 <= i < |Messages(v.taskChat)| ==> Messages(v.taskChat)[i].taskId == v.selectedTaskId)
  }

  /** The chat callback keeps every open conversation free of other
      conversations' messages. */
  lemma OnChatChangeKeepsBelonging(v: ChatView, change: Change<ChatMessage>)
    requires ChatsBelong(v)
    ensures ChatsBelong(OnChatChange(v, change))
  {
    var r := OnChatChange(v, change);
    forall i | 0 <= i < |Messages(r.bookingChat)|
      ensures Messages(r.bookingChat)[i].bookingId == v.selectedBookingId
    {
      if change.Insert? && Belongs(change.row.bookingId, v.selectedBookingId) && i < |Messages(v.bookingChat)| {
        assert Messages(r.bookingChat)[i] == Messages(v.bookingChat)[i];
      }
    }
    forall i | 0 <= i < |Messages(r.taskChat)|
      ensures Messages(r.taskChat)[i].taskId == v.selectedTaskId
    {
      if change.Insert? && Belongs(change.row.taskId, v.selectedTaskId) && i < |Messages(v.taskChat)| {
        assert Messages(r.taskChat)[i] == Messages(v.taskChat)[i];
      }
    }
  }

  /** The condition `fetchChatMessages` puts on its query. */
  datatype ChatFilter = ByBooking(bookingId: string) | ByTask(taskId: string)

  /** The filter `fetchChatMessages` chooses: the booking id when it is set,
      otherwise the task id when that is set, otherwise none at all. */
  function ChooseFilter(bookingId: Option<string>, taskId: Option<string>): (r: Option<ChatFilter>)
    ensures r.None? <==> !Present(bookingId) && !Present(taskId)
    ensures Present(bookingId) ==> r == Some(ByBooking(bookingId.value))
    ensures !Present(bookingId) && Present(taskId) ==> r == Some(ByTask(taskId.value))
  {
    if Present(bookingId) then Some(ByBooking(bookingId.value))
    else if Present(taskId) then Some(ByTask(taskId.value))
    else None
  }

  /** `fetchChatMessages(bookingId, taskId)`, with `response` standing for
      what the database answers to a query with the given filter. Without a
      filter nothing is queried and the result is empty; an error or null
      data also gives an empty list. */
  function FetchChatMessages(bookingId: Option<string>, taskId: Option<string>,
                             response: ChatFilter -> QueryResult<ChatMessage>): (r: seq<ChatMessage>)
    ensures ChooseFilter(bookingId, taskId).None? ==> r == []
    ensures ChooseFilter(bookingId, taskId).Some? ==>
              var answer := response(ChooseFilter(bookingId, taskId).value);
              && (answer.error.Some? || answer.data.None? ==> r == [])
              && (answer.error.None? && answer.data.Some? ==> r == answer.data.value)
  {
    match ChooseFilter(bookingId, taskId)
    case None => []
    case Some(filter) =>
      var answer := response(filter);
      if answer.error.Some? then []
      else if answer.data.Some? then answer.data.value
      else []
  }

  /** A message satisfies a query filter. */
  predicate Matches(filter: ChatFilter, m: ChatMessage)
  {
    match filter
    case ByBooking(id) => m.bookingId == Some(id)
    case ByTask(id) => m.taskId == Some(id)
  }

  /** The database answers every filtered query with matching rows only. */
  ghost predicate Honours(response: ChatFilter -> QueryResult<ChatMessage>)
  {
    forall filter: ChatFilter, i: nat :: response(filter).data.Some? && i < |response(filter).data.value| ==>
      Matches(filter, response(filter).data.value[i])
  }

  /** `setSelectedChat(bookingId, taskId)` followed by the two effects that
      run when a selection changes: a conversation whose selection changed is
      reloaded with `fetchChatMessages` when the new selection is set, and
      becomes null when it is not. */
  function SetSelectedChat(v: ChatView, bookingId: Option<string>, taskId: Option<string>,
                           response: ChatFilter -> QueryResult<ChatMessage>): (r: ChatView)
    ensures r.selectedBookingId == bookingId && r.selectedTaskId == taskId
    ensures bookingId == v.selectedBookingId ==> r.bookingChat == v.bookingChat
    ensures bookingId != v.selectedBookingId && !Present(bookingId) ==> r.bookingChat.None?
    ensures bookingId != v.selectedBookingId && Present(bookingId) ==>
              r.bookingChat == Some(FetchChatMessages(bookingId, None, response))
    ensures taskId == v.selectedTaskId ==> r.taskChat == v.taskChat
    ensures taskId != v.selectedTaskId && !Present(taskId) ==> r.taskChat.None?
    ensures taskId != v.selectedTaskId && Present(taskId) ==>
              r.taskChat == Some(FetchChatMessages(None, taskId, response))
  {
    var bookingChat :=
      if bookingId == v.selectedBookingId then v.bookingChat
      else if Present(bookingId) then Some(FetchChatMessages(bookingId, None, response))
      else None;
    var taskChat :=
      if taskId == v.selectedTaskId then v.taskChat
      else if Present(taskId) then Some(FetchChatMessages(None, taskId, response))
      else None;
    ChatView(bookingId, taskId, bookingChat, taskChat)
  }

  /** When the database honours the filters, selecting a conversation shows
      only its own messages, so together with the chat callback every
      reachable view keeps its conversations apart. */
  lemma SelectingKeepsBelonging(v: ChatView, bookingId: Option<string>, taskId: Option<string>,
                                response: ChatFilter -> QueryResult<ChatMessage>)
    requires Honours(response)
    requires ChatsBelong(v)
    ensures ChatsBelong(SetSelectedChat(v, bookingId, taskId, response))
  {
    var r := SetSelectedChat(v, bookingId, taskId, response);
    if bookingId != v.selectedBookingId && Present(bookingId) {
      var ms := FetchChatMessages(bookingId, None, response);
      forall i | 0 <= i < |ms|
        ensures ms[i].bookingId == bookingId
      {
        assert Matches(ByBooking(bookingId.value), ms[i]);
      }
    }
    if taskId != v.selectedTaskId && Present(taskId) {
      var ms := FetchChatMessages(None, taskId, response);
      forall i | 0 <= i < |ms|
        ensures ms[i].taskId == taskId
      {
        assert Matches(ByTask(taskId.value), ms[i]);
      }
    }
  }
}
