/**
 * The events a download worker puts on its queue, as the coordinators read
 * them. Each is a dict with `task_id`, `type` and a type-specific payload.
 */
module Events {
  import opened Wrappers

  datatype Event =
    | Log(taskId: string, message: string)
    | Status(taskId: string, status: string)
    | Title(taskId: string, title: string)
    | Done(taskId: string, path: string)
    | Error(taskId: string, error: string)
      /** `finalError` is the dict's `error`: `None` both for Python's `None` and for a missing key. */
    | Finished(taskId: string, cancelled: bool, finalError: Option<string>)
      /** Read by the web coordinator, never emitted by the worker. */
    | Progress(taskId: string, status: string)

  /** The dict's `type`. */
  function TypeName(e: Event): string {
    match e
    case Log(_, _) => "log"
    case Status(_, _) => "status"
    case Title(_, _) => "title"
    case Done(_, _) => "done"
    case Error(_, _) => "error"
    case Finished(_, _, _) => "finished"
    case Progress(_, _) => "progress"
  }

  /** `event.get(key)` for the dict's text-valued keys; `None` for a key the dict lacks. */
  function Get(e: Event, key: string): (r: Option<string>)
    ensures key == "task_id" ==> r == Some(e.taskId)
    ensures key == "type" ==> r == Some(TypeName(e))
  {
    if key == "task_id" then Some(e.taskId)
    else if key == "type" then Some(TypeName(e))
    else
      match e
      case Log(_, message) => if key == "message" then Some(message) else None
      case Status(_, status) => if key == "status" then Some(status) else None
      case Title(_, title) => if key == "title" then Some(title) else None
      case Done(_, path) => if key == "path" then Some(path) else None
      case Error(_, error) => if key == "error" then Some(error) else None
      case Finished(_, _, error) => if key == "error" then error else None
      case Progress(_, status) => if key == "status" then Some(status) else None
  }

  /** An error event carries its text under `error`, and has no `message`. */
  lemma ErrorEventFields(e: Event)
    requires e.Error?
    ensures Get(e, "error") == Some(e.error)
    ensures Get(e, "message") == None
  {
  }

  // ---------------------------------------------------------------------------
  // The milestones of an event sequence

  /** The events that decide a task's fate; logs and titles are left out. */
  datatype Milestone =
    | StatusMark(status: string)
    | DoneMark(path: string)
    | ErrorMark(error: string)
    | FinishedMark(cancelled: bool, finalError: Option<string>)

  function MilestoneOf(e: Event): Option<Milestone> {
    match e
    case Status(_, s) => Some(StatusMark(s))
    case Done(_, p) => Some(DoneMark(p))
    case Error(_, m) => Some(ErrorMark(m))
    case Finished(_, c, m) => Some(FinishedMark(c, m))
    case _ => None
  }

  /** The milestone an event stands for, as a sequence of at most one. */
  function Marks(e: Event): (r: seq<Milestone>)
    ensures |r| <= 1
    ensures r == [] <==> e.Log? || e.Title? || e.Progress?
  {
    match MilestoneOf(e)
    case Some(m) => [m]
    case None => []
  }

  /** The milestones of `events`, in order. */
  function Milestones(events: seq<Event>): (r: seq<Milestone>)
    ensures |r| <= |events|
  {
    if events == [] then [] else Marks(events[0]) + Milestones(events[1..])
  }

  lemma {:induction false} MilestonesAppend(a: seq<Event>, b: seq<Event>)
    ensures Milestones(a + b) == Milestones(a) + Milestones(b)
  {
    if a == [] {
      assert a + b == b;
    } else {
      assert (a + b)[1..] == a[1..] + b;
      MilestonesAppend(a[1..], b);
    }
  }

  /** How many `finished` events a sequence holds. */
  function FinishedCount(events: seq<Event>): nat {
    if events == [] then 0
    else FinishedCount(events[..|events| - 1]) + if events[|events| - 1].Finished? then 1 else 0
  }

  function FinishedMarkCount(ms: seq<Milestone>): nat {
    if ms == [] then 0 else (if ms[0].FinishedMark? then 1 else 0) + FinishedMarkCount(ms[1..])
  }

  /** Every `finished` event shows up among the milestones, and nothing else counts as one. */
  lemma {:induction false} FinishedCountOfMilestones(events: seq<Event>)
    ensures FinishedCount(events) == FinishedMarkCount(Milestones(events))
  {
    if events != [] {
      var init, last := events[..|events| - 1], events[|events| - 1];
      assert init + [last] == events;
      FinishedCountOfMilestones(init);
      MilestonesSnoc(init, last);
      FinishedMarkCountAppend(Milestones(init), Marks(last));
      FinishedMarksOfEvent(last);
    }
  }

  /** An event stands for one `finished` milestone exactly when it is a `finished` event. */
  lemma FinishedMarksOfEvent(e: Event)
    ensures FinishedMarkCount(Marks(e)) == if e.Finished? then 1 else 0
  {
    if Marks(e) != [] {
      assert Marks(e)[1..] == [];
    }
  }

  /** Appending one event adds its milestone, if it has one. */
  lemma MilestonesSnoc(events: seq<Event>, e: Event)
    ensures Milestones(events + [e]) == Milestones(events) + Marks(e)
  {
    MilestonesAppend(events, [e]);
    assert [e][1..] == [];
  }

  lemma {:induction false} FinishedMarkCountAppend(a: seq<Milestone>, b: seq<Milestone>)
    ensures FinishedMarkCount(a + b) == FinishedMarkCount(a) + FinishedMarkCount(b)
  {
    if a == [] {
      assert a + b == b;
    } else {
      assert (a + b)[1..] == a[1..] + b;
      FinishedMarkCountAppend(a[1..], b);
    }
  }
}
