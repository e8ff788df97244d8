/** The pure pieces of the tasks column: the badge variant and label of a
    task status, the selected task and the count in the header. */
module TasksColumn {
  import opened Js
  import opened Strings
  import opened Schema

  datatype BadgeVariant = Default | Secondary | Destructive | Outline

  /** `getStatusBadgeVariant(status)`: pending is secondary, confirmed is
      outlined, in progress and completed use the default style, cancelled
      is destructive; a missing or unknown status is secondary. */
  function StatusBadgeVariant(status: Option<string>): (r: BadgeVariant)
    ensures r == Default <==> status == Some("in_progress") || status == Some("completed")
    ensures r == Outline <==> status == Some("confirmed")
    ensures r == Destructive <==> status == Some("cancelled")
    ensures r == Secondary <==>
              status !in {Some("in_progress"), Some("completed"), Some("confirmed"), Some("cancelled")}
  {
    match status
    case None => Secondary
    case Some(s) =>
      if s == "pending" then Secondary
      else if s == "confirmed" then Outline
      else if s == "in_progress" then Default
      else if s == "completed" then Default
      else if s == "cancelled" then Destructive
      else Secondary
  }

  /** The variant of every status the database can hold. */
  lemma BadgeOfEachStatus(s: TaskStatus)
    ensures StatusBadgeVariant(Some(StatusName(s))) ==
              match s
              case Pending => Secondary
              case Confirmed => Outline
              case InProgress => Default
              case Completed => Default
              case Cancelled => Destructive
  {
  }

  /** `status?.replace("_", " ")`: only the first underscore becomes a
      space; an absent status has no label. */
  function StatusLabel(status: Option<string>): (r: Option<string>)
    ensures r.None? <==> status.None?
    ensures r.Some? ==> |r.value| == |status.value|
    ensures r.Some? && '_' !in status.value ==> r.value == status.value
    ensures r.Some? && '_' in status.value ==>
              var i := IndexOf(status.value, '_');
              r.value[i] == ' ' && '_' !in r.value[..i]
              && forall j :: 0 <= j < |status.value| && j != i ==> r.value[j] == status.value[j]
  {
    match status
    case None => None
    case Some(s) => Some(ReplaceFirst(s, '_', ' '))
  }

  /** Every status name has at most one underscore, so its label has none. */
  lemma LabelOfEachStatus(s: TaskStatus)
    ensures StatusLabel(Some(StatusName(s))) == Some(
              match s
              case Pending => "pending"
              case Confirmed => "confirmed"
              case InProgress => "in progress"
              case Cancelled => "cancelled"
              case Completed => "completed")
  {
    var name := StatusName(s);
    if s == InProgress {
      assert IndexOf(name, '_') == 2;
      assert name[..2] + [' '] + name[3..] == "in progress";
    } else {
      assert forall i :: 0 <= i < |name| ==> name[i] != '_';
    }
  }

  /** A label keeps only the underscores after the first. */
  lemma {:induction false} LabelDropsOneUnderscore(s: string)
    requires '_' in s
    ensures var r := StatusLabel(Some(s)).value;
            multiset(r)['_'] == multiset(s)['_'] - 1 && multiset(r)[' '] == multiset(s)[' '] + 1
  {
    var i := IndexOf(s, '_');
    var r := ReplaceFirst(s, '_', ' ');
    assert s == s[..i] + [s[i]] + s[i + 1..];
    assert r == s[..i] + [' '] + s[i + 1..];
  }

  /** `tasks?.find(t => t.id === selectedTaskId)`: the first task with the
      selected id, and none when there is no such task or no task list. */
  function FindSelectedTask(tasks: Option<seq<Task>>, selectedTaskId: Option<string>): (r: Option<Task>)
    ensures r.Some? ==> tasks.Some? && r.value in tasks.value && Some(r.value.id) == selectedTaskId
    ensures r.None? <==> tasks.None? || forall t <- tasks.value :: Some(t.id) != selectedTaskId
    ensures r.Some? ==>
              exists i :: 0 <= i < |tasks.value| && tasks.value[i] == r.value
                          && forall j :: 0 <= j < i ==> Some(tasks.value[j].id) != selectedTaskId
  {
    match tasks
    case None => None
    case Some(ts) => FirstWithId(ts, selectedTaskId)
  }

  function FirstWithId(ts: seq<Task>, selectedTaskId: Option<string>): (r: Option<Task>)
    ensures r.Some? ==> r.value in ts && Some(r.value.id) == selectedTaskId
    ensures r.None? <==> forall t <- ts :: Some(t.id) != selectedTaskId
    ensures r.Some? ==>
              exists i :: 0 <= i < |ts| && ts[i] == r.value
                          && forall j :: 0 <= j < i ==> Some(ts[j].id) != selectedTaskId
  {
    if ts == [] then None
    else if Some(ts[0].id) == selectedTaskId then Some(ts[0])
    else
      var r := FirstWithId(ts[1..], selectedTaskId);
      if r.Some? then
        var i :| 0 <= i < |ts[1..]| && ts[1..][i] == r.value
                 && forall j :: 0 <= j < i ==> Some(ts[1..][j].id) != selectedTaskId;
        assert ts[i + 1] == r.value;
        r
      else r
  }

  /** Task ids are primary keys, so the selected task is the only task with
      the selected id. */
  lemma SelectedTaskUnique(tasks: seq<Task>, selectedTaskId: Option<string>, t: Task)
    requires forall i, j :: 0 <= i < j < |tasks| ==> tasks[i].id != tasks[j].id
    requires t in tasks && Some(t.id) == selectedTaskId
    ensures FindSelectedTask(Some(tasks), selectedTaskId) == Some(t)
  {
    var r := FindSelectedTask(Some(tasks), selectedTaskId);
    var k :| 0 <= k < |tasks| && tasks[k] == t;
    var i :| 0 <= i < |tasks| && tasks[i] == r.value
             && forall j :: 0 <= j < i ==> Some(tasks[j].id) != selectedTaskId;
    assert !(k < i);
  }

  /** `tasks?.length || 0`: the number of tasks, zero when there is no list. */
  function TaskCount(tasks: Option<seq<Task>>): (n: nat)
    ensures tasks.Some? ==> n == |tasks.value|
    ensures n == 0 <==> tasks.None? || tasks.value == []
  {
    if tasks.None? then 0 else |tasks.value|
  }
}
