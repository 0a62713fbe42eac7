/**
  `Task.toggle` of src/Task.ts: the status transition of one task, which may also produce the
  next occurrence of a recurring task. The clock (`window.moment()`) is the parameter `today`.
*/
module Toggle {
  import opened Wrappers
  import opened Dates
  import opened Statuses
  import opened Tasks
  import Settings

  /** What `toggle` reads besides the task: the status registry, the settings, today's date, the recurrence service. */
  datatype ToggleEnv = ToggleEnv(registry: Registry, settings: Settings.Settings, today: Date, recurrence: RecurrenceService)

  /** The status a toggle moves to: the explicit argument, else the registry's next status. */
  function NewStatus(t: Task, status: Option<Status>, registry: Registry): (s: Status)
    ensures status.Some? ==> s == status.value
    ensures status.None? ==> s == registry.next(t.status)
  {
    status.GetOr(registry.next(t.status))
  }

  /** The done date the toggled task gets: today when completing with `setDoneDate` on, else none. */
  function NewDoneDate(s: Status, env: ToggleEnv): (d: Option<Date>)
    ensures d.Some? <==> s.completed && Settings.Truthy(env.settings.setDoneDate)
    ensures d.Some? ==> d.value == env.today
  {
    if s.completed && Settings.Truthy(env.settings.setDoneDate) then Some(env.today) else None
  }

  /** The next occurrence's dates: asked of the recurrence only when completing a recurring task. */
  function NextOccurrence(t: Task, s: Status, env: ToggleEnv): (o: Option<Occurrence>)
    ensures o.Some? ==> s.completed && t.recurrence.Some? && env.recurrence.next(t.recurrence.value) == o
    ensures !s.completed || t.recurrence.None? ==> o.None?
  {
    if s.completed && t.recurrence.Some? then env.recurrence.next(t.recurrence.value) else None
  }

  /**
    `toggle(status?)`: `[toggled]`, or `[next, toggled]` when the task recurs and is completed.
    The toggled task differs from the task only in its status and done date; the next occurrence
    differs only in its three dates, taken from the recurrence, and its emptied block link.
  */
  function Toggle(t: Task, status: Option<Status>, env: ToggleEnv): (r: seq<Task>)
    ensures 1 <= |r| <= 2
    ensures var last := r[|r| - 1];
      && last.(status := t.status, doneDate := t.doneDate) == t
      && last.status == NewStatus(t, status, env.registry)
      && (last.doneDate.Some? <==> last.status.completed && Settings.Truthy(env.settings.setDoneDate))
      && (last.doneDate.Some? ==> last.doneDate.value == env.today)
    ensures |r| == 2 <==> NextOccurrence(t, r[|r| - 1].status, env).Some?
    ensures |r| == 2 ==>
      var o := NextOccurrence(t, r[1].status, env).value;
      && r[0].(startDate := t.startDate, scheduledDate := t.scheduledDate, dueDate := t.dueDate, blockLink := t.blockLink) == t
      && r[0].startDate == o.startDate && r[0].scheduledDate == o.scheduledDate && r[0].dueDate == o.dueDate
      && r[0].blockLink == ""
  {
    var s := NewStatus(t, status, env.registry);
    var toggled := t.(status := s, doneDate := NewDoneDate(s, env));
    match NextOccurrence(t, s, env)
    case None => [toggled]
    case Some(o) => [t.(startDate := o.startDate, scheduledDate := o.scheduledDate, dueDate := o.dueDate, blockLink := ""), toggled]
  }

  /** A toggle to a status that is not completed yields the one task, with its done date cleared. */
  lemma ToggleToOpen(t: Task, s: Status, env: ToggleEnv)
    requires !s.completed
    ensures Toggle(t, Some(s), env) == [t.(status := s, doneDate := None)]
  {
  }

  /**
    Completing a non-recurring open task and toggling it back to its old status gives the task
    back: toggling is undone by toggling.
  */
  lemma ToggleBack(t: Task, s: Status, env: ToggleEnv)
    requires !t.status.completed && t.doneDate.None? && t.recurrence.None?
    ensures |Toggle(t, Some(s), env)| == 1
    ensures Toggle(Toggle(t, Some(s), env)[0], Some(t.status), env) == [t]
  {
    var r := Toggle(t, Some(s), env);
    assert r[0].(status := t.status, doneDate := t.doneDate) == t;
  }

  /**
    The next occurrence keeps the original status (it is the task before the toggle), so the
    occurrence is still open when the task was.
  */
  lemma NextKeepsStatus(t: Task, status: Option<Status>, env: ToggleEnv)
    requires |Toggle(t, status, env)| == 2
    ensures Toggle(t, status, env)[0].status == t.status
    ensures Toggle(t, status, env)[0].doneDate == t.doneDate
    ensures Toggle(t, status, env)[1].status.completed
  {
    var r := Toggle(t, status, env);
    assert r[0].(startDate := t.startDate, scheduledDate := t.scheduledDate, dueDate := t.dueDate, blockLink := t.blockLink) == t;
  }
}
