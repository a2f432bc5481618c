/**
 * The web front end's `Bridge`: the persisted download queue, the waiting
 * list of sequential downloads, the registered workers, and the event loop
 * that keeps the queue in step with the workers' events.
 *
 * Threads are abstracted away: every method is one atomic step, a worker is
 * a handle that records whether `cancel` was called on it, and whether a
 * worker thread is still alive is a parameter of the step that asks.
 */
module Bridge {
  import opened Wrappers
  import Text
  import opened Events

  /** One entry of `queue_items`. */
  datatype QueueItem = QueueItem(id: string, url: string, title: string, status: string, path: string, error: string)

  /** The keyword arguments a worker is started with. */
  datatype WorkerArgs = WorkerArgs(
    taskId: string, url: string, root: string, title: Option<string>,
    convertToMp4: bool, startSeconds: real, endSeconds: Option<real>)

  /** A started worker: its arguments, and whether `cancel` was called on it. */
  datatype WorkerHandle = WorkerHandle(args: WorkerArgs, cancelRequested: bool)

  /** The settings the bridge reads and writes. */
  datatype Settings = Settings(rootFolder: string, mp4: bool, sequential: bool)

  /** The `options` of `start_download`; an absent key is `None`. */
  datatype StartOptions = StartOptions(mp4: Option<bool>, sequential: Option<bool>, startSeconds: Option<real>, endSeconds: Option<real>)

  /** The dict a bridge method returns to the page: `status` `error` with its text, or `ok`. */
  datatype Reply = Failure(error: string) | Accepted(taskId: Option<string>, queued: bool)

  /** An element of the queue file: an object whose values are texts, or anything else. */
  datatype StoredEntry = Object(fields: map<string, string>) | NotObject

  /** A value the page sends to `update_setting`. */
  datatype SettingValue = Null | Flag(b: bool) | Number(n: int) | Str(s: string)

  /** Python's truth value of a setting value. */
  predicate Truthy(v: SettingValue) {
    match v
    case Null => false
    case Flag(b) => b
    case Number(n) => n != 0
    case Str(s) => s != []
  }

  /** The error text of a task that was still downloading when the queue was saved. */
  const InterruptedMessage := "Відео не було повністю завантажено"

  const ActiveStatuses: set<string> := {"downloading", "converting"}

  // ---------------------------------------------------------------------------
  // Lookups

  /** The index of the first item with this id. */
  function FirstIndex(items: seq<QueueItem>, id: string): (r: Option<nat>)
    ensures r.Some? ==> r.value < |items| && items[r.value].id == id
    ensures r.Some? ==> forall j | 0 <= j < r.value :: items[j].id != id
    ensures r.None? <==> forall j | 0 <= j < |items| :: items[j].id != id
  {
    if items == [] then None
    else if items[0].id == id then Some(0)
    else match FirstIndex(items[1..], id)
      case Some(k) => Some(k + 1)
      case None => None
  }

  /** The index of the first waiting entry for this task. */
  function FirstWaiting(waiting: seq<WorkerArgs>, id: string): (r: Option<nat>)
    ensures r.Some? ==> r.value < |waiting| && waiting[r.value].taskId == id
    ensures r.Some? ==> forall j | 0 <= j < r.value :: waiting[j].taskId != id
    ensures r.None? <==> forall j | 0 <= j < |waiting| :: waiting[j].taskId != id
  {
    if waiting == [] then None
    else if waiting[0].taskId == id then Some(0)
    else match FirstWaiting(waiting[1..], id)
      case Some(k) => Some(k + 1)
      case None => None
  }

  /** The waiting list after `_remove_from_waiting`: the first entry for the task dropped. */
  function WithoutFirstWaiting(waiting: seq<WorkerArgs>, id: string): (r: seq<WorkerArgs>)
    ensures FirstWaiting(waiting, id).None? ==> r == waiting
    ensures FirstWaiting(waiting, id).Some? ==> |r| == |waiting| - 1
  {
    match FirstWaiting(waiting, id)
    case Some(i) => waiting[..i] + waiting[i + 1..]
    case None => waiting
  }

  /** The items without any item of this id, in their order. */
  function WithoutId(items: seq<QueueItem>, id: string): (r: seq<QueueItem>)
    ensures |r| <= |items|
    ensures forall it :: it in r <==> it in items && it.id != id
  {
    if items == [] then []
    else (if items[0].id != id then [items[0]] else []) + WithoutId(items[1..], id)
  }

  // ---------------------------------------------------------------------------
  // Record updates

  /** `_mark_status` on one item: the new status, and the error given, else cleared unless the status is `error`. */
  function Marked(item: QueueItem, status: string, error: Option<string>): (r: QueueItem)
    ensures r.id == item.id && r.url == item.url && r.title == item.title && r.path == item.path
    ensures r.status == status
    ensures error.Some? ==> r.error == error.value
    ensures error.None? && status != "error" ==> r.error == []
    ensures error.None? && status == "error" ==> r.error == item.error
  {
    item.(status := status, error := if error.Some? then error.value else if status != "error" then [] else item.error)
  }

  /** `_mark_status` on the queue: only the first item of the task changes. */
  function MarkedItems(items: seq<QueueItem>, id: string, status: string, error: Option<string>): seq<QueueItem> {
    match FirstIndex(items, id)
    case Some(i) => items[i := Marked(items[i], status, error)]
    case None => items
  }

  /** What an event does to the item of its task in `_update_queue_from_event`. */
  function Applied(item: QueueItem, e: Event): (r: QueueItem)
    ensures r.id == item.id && r.url == item.url
    ensures !Persists(e) ==> r == item || (e.Title? && r == item.(title := e.title))
  {
    match e
    case Title(_, t) => if t != [] then item.(title := t) else item
    case Done(_, p) => item.(status := "done", path := p)
    case Error(_, m) => item.(status := "error", error := m)
    case Finished(_, cancelled, _) => if cancelled then item.(status := "cancelled") else item
    case Status(_, s) => if s != [] then item.(status := s) else item
    case Progress(_, s) => if s != [] then item.(status := s) else item
    case Log(_, _) => item
  }

  /** Whether `_update_queue_from_event` saves the queue after an event (a title alone is not saved). */
  predicate Persists(e: Event) {
    e.Done? || e.Error? || (e.Finished? && e.cancelled) || ((e.Status? || e.Progress?) && e.status != [])
  }

  /** The queue after `_update_queue_from_event`. */
  function UpdatedItems(items: seq<QueueItem>, e: Event): seq<QueueItem> {
    if e.taskId == [] then items
    else match FirstIndex(items, e.taskId)
      case Some(i) => items[i := Applied(items[i], e)]
      case None => items
  }

  /**
   * The saved queue after `_mark_status` turned `before` into `after`: the
   * new queue when the task had an item, else what was saved before.
   */
  function SavedAfterMark(before: seq<QueueItem>, id: string, after: seq<QueueItem>, saved: Option<seq<QueueItem>>)
    : Option<seq<QueueItem>>
  {
    if FirstIndex(before, id).Some? then Some(after) else saved
  }

  /**
   * The saved queue after `_update_queue_from_event`: the updated queue when
   * the event reached an item and its change persists, else what was saved before.
   */
  function SavedAfterEvent(items: seq<QueueItem>, e: Event, saved: Option<seq<QueueItem>>): Option<seq<QueueItem>> {
    if e.taskId != [] && FirstIndex(items, e.taskId).Some? && Persists(e) then Some(UpdatedItems(items, e)) else saved
  }

  /** An event changes only the first item of its task, and keeps its id and url. */
  lemma UpdateTouchesFirstOnly(items: seq<QueueItem>, e: Event)
    ensures |UpdatedItems(items, e)| == |items|
    ensures forall j | 0 <= j < |items| && Some(j) != FirstIndex(items, e.taskId) :: UpdatedItems(items, e)[j] == items[j]
    ensures forall j | 0 <= j < |items| ::
      UpdatedItems(items, e)[j].id == items[j].id && UpdatedItems(items, e)[j].url == items[j].url
  {
  }

  /** The status an event leaves on its task's item, when it has one. */
  lemma AppliedStatus(item: QueueItem, e: Event)
    ensures e.Done? ==> Applied(item, e).status == "done" && Applied(item, e).path == e.path
    ensures e.Error? ==> Applied(item, e).status == "error" && Applied(item, e).error == e.error
    ensures e.Finished? && e.cancelled ==> Applied(item, e).status == "cancelled"
    ensures e.Finished? && !e.cancelled ==> Applied(item, e) == item
    ensures (e.Status? || e.Progress?) && e.status != [] ==> Applied(item, e).status == e.status
    ensures !Persists(e) ==>
      Applied(item, e).status == item.status && Applied(item, e).path == item.path && Applied(item, e).error == item.error
  {
  }

  /** The events after which `_dispatch_events` tries to start the next waiting task. */
  predicate Admits(e: Event) {
    e.Done? || e.Error? || e.Finished?
  }

  /** The workers after `_dispatch_events` reaps: a `finished` task's worker goes once its thread has ended. */
  function Reaped(workers: map<string, WorkerHandle>, e: Event, alive: bool): (r: map<string, WorkerHandle>)
    ensures r.Keys <= workers.Keys && |r| <= |workers|
    ensures e.Finished? && e.taskId in workers && !alive ==> e.taskId !in r && |r| == |workers| - 1
    ensures !e.Finished? || alive ==> r == workers
  {
    if e.Finished? && e.taskId in workers && !alive then workers - {e.taskId} else workers
  }

  // ---------------------------------------------------------------------------
  // Loading the queue file

  /** `item.get(key, default)`. */
  function Field(fields: map<string, string>, key: string, default: string): string {
    if key in fields then fields[key] else default
  }

  /** `item.get(key)` is truthy. */
  predicate HasText(fields: map<string, string>, key: string) {
    key in fields && fields[key] != []
  }

  /** Whether loading rewrites this entry's status, so that the file is saved again. */
  predicate Rewritten(e: StoredEntry) {
    e.Object? && Text.Strip(Field(e.fields, "id", "")) != []
    && (Field(e.fields, "status", "done") in ActiveStatuses || Field(e.fields, "status", "done") == "queued")
  }

  /** Whether loading rewrites some entry, so that `_load_queue` writes the file back. */
  predicate AnyRewritten(entries: seq<StoredEntry>) {
    exists k | 0 <= k < |entries| :: Rewritten(entries[k])
  }

  /** The item `_load_queue` keeps for an entry, if it keeps one. */
  function LoadedItem(e: StoredEntry): (r: Option<QueueItem>)
    ensures r.Some? <==> e.Object? && Text.Strip(Field(e.fields, "id", "")) != []
    ensures r.Some? ==> r.value.id == Text.Strip(Field(e.fields, "id", "")) && r.value.title != []
    ensures r.Some? ==> r.value.status !in ActiveStatuses && r.value.status != "queued"
  {
    match e
    case NotObject => None
    case Object(f) =>
      var id := Text.Strip(Field(f, "id", ""));
      if id == [] then None
      else
        var status := Field(f, "status", "done");
        var error := Field(f, "error", "");
        var title := if HasText(f, "title") then f["title"] else if HasText(f, "url") then f["url"] else id;
        var item := QueueItem(id, Field(f, "url", ""), title, status, Field(f, "path", ""), error);
        if status in ActiveStatuses then Some(item.(status := "error", error := InterruptedMessage))
        else if status == "queued" then Some(item.(status := "cancelled"))
        else Some(item)
  }

  /** The items `_load_queue` keeps, in the file's order. */
  function LoadedAll(entries: seq<StoredEntry>): (r: seq<QueueItem>)
    ensures |r| <= |entries|
  {
    if entries == [] then []
    else
      var last := entries[|entries| - 1];
      LoadedAll(entries[..|entries| - 1]) + (if LoadedItem(last).Some? then [LoadedItem(last).value] else [])
  }

  /** Every loaded item has an id and a title, and none is left downloading, converting or queued. */
  lemma {:induction false} LoadedAllSettled(entries: seq<StoredEntry>)
    ensures |LoadedAll(entries)| <= |entries|
    ensures forall it | it in LoadedAll(entries) ::
      it.id != [] && it.title != [] && it.status !in ActiveStatuses && it.status != "queued"
  {
    if entries != [] {
      LoadedAllSettled(entries[..|entries| - 1]);
    }
  }

  /** An entry that was downloading when the queue was saved comes back as an error with the fixed message. */
  lemma LoadedInterrupted(e: StoredEntry)
    requires e.Object? && Text.Strip(Field(e.fields, "id", "")) != []
    requires Field(e.fields, "status", "done") in ActiveStatuses
    ensures LoadedItem(e).Some? && LoadedItem(e).value.status == "error"
    ensures LoadedItem(e).value.error == InterruptedMessage
  {
  }

  /** A waiting entry comes back cancelled; any other status is kept. */
  lemma LoadedStatus(e: StoredEntry)
    requires e.Object? && Text.Strip(Field(e.fields, "id", "")) != []
    ensures Field(e.fields, "status", "done") == "queued" ==> LoadedItem(e).value.status == "cancelled"
    ensures Field(e.fields, "status", "done") !in ActiveStatuses && Field(e.fields, "status", "done") != "queued" ==>
      LoadedItem(e).value.status == Field(e.fields, "status", "done") && LoadedItem(e).value.error == Field(e.fields, "error", "")
  {
  }

  /** The title falls back from the entry's title to its url to its id. */
  lemma LoadedTitle(e: StoredEntry)
    requires e.Object? && Text.Strip(Field(e.fields, "id", "")) != []
    ensures HasText(e.fields, "title") ==> LoadedItem(e).value.title == e.fields["title"]
    ensures !HasText(e.fields, "title") && HasText(e.fields, "url") ==> LoadedItem(e).value.title == e.fields["url"]
    ensures !HasText(e.fields, "title") && !HasText(e.fields, "url") ==>
      LoadedItem(e).value.title == Text.Strip(Field(e.fields, "id", ""))
  {
  }

  // ---------------------------------------------------------------------------
  // Admission

  /** `title or url`. */
  function ItemTitle(title: Option<string>, url: string): string {
    if title.Some? && title.value != [] then title.value else url
  }

  /** `start_download` puts a sequential task on the waiting list while any worker runs or any task waits. */
  predicate Queues(sequential: bool, activeWorkers: nat, waiting: seq<WorkerArgs>) {
    sequential && (activeWorkers > 0 || waiting != [])
  }

  // ---------------------------------------------------------------------------
  // The lock of `cancel_download`

  /** An operation on the bridge's `threading.Lock`. */
  datatype LockOp = Acquire | Release

  /**
   * The holding state after the operations, or `None` when an `Acquire`
   * finds the lock held: the lock is not re-entrant, so that thread waits
   * for itself for ever.
   */
  function RunLock(held: bool, ops: seq<LockOp>): (r: Option<bool>)
    ensures ops == [] ==> r == Some(held)
    ensures ops != [] && ops[0] == Acquire && held ==> r.None?
    decreases |ops|
  {
    if ops == [] then Some(held)
    else match ops[0]
      case Acquire => if held then None else RunLock(true, ops[1..])
      case Release => RunLock(false, ops[1..])
  }

  /**
   * The lock operations of `cancel_download` as written: it holds the lock
   * while it calls `_remove_from_waiting`, which takes the lock again, and,
   * for a waiting task, `_mark_status`, which takes it once more.
   */
  function CancelLocksAsWritten(hasWorker: bool, isWaiting: bool): seq<LockOp> {
    if hasWorker then [Acquire, Release]
    else if isWaiting then [Acquire, Acquire, Release, Acquire, Release, Release]
    else [Acquire, Acquire, Release, Release]
  }

  /** As written, cancelling a task that has no worker blocks the calling thread for ever. */
  lemma CancelWithoutWorkerBlocks(isWaiting: bool)
    ensures RunLock(false, CancelLocksAsWritten(false, isWaiting)) == None
  {
    var ops := CancelLocksAsWritten(false, isWaiting);
    assert ops[0] == Acquire && ops[1..][0] == Acquire;
    assert RunLock(false, ops) == RunLock(true, ops[1..]);
  }

  /**
   * The evidently intended locking: the waiting list and the queue are
   * updated under the one acquisition, which is released before the worker
   * is cancelled.
   */
  function CancelLocksIntended(hasWorker: bool, isWaiting: bool): seq<LockOp> {
    [Acquire, Release]
  }

  /** With the intended locking every cancellation returns, leaving the lock free. */
  lemma CancelIntendedReturns(hasWorker: bool, isWaiting: bool)
    ensures RunLock(false, CancelLocksIntended(hasWorker, isWaiting)) == Some(false)
  {
    var ops := CancelLocksIntended(hasWorker, isWaiting);
    assert ops[1..] == [Release] && ops[1..][1..] == [];
  }

  // ---------------------------------------------------------------------------
  // The bridge

  class Bridge {
    /** `self.settings`, and the settings file as last written. */
    var settings: Settings
    var savedSettings: Settings
    /** `self.root_folder`. */
    var rootFolder: string
    /** `self.queue_items`, and the queue file as last written by the bridge (`None`: not yet). */
    var items: seq<QueueItem>
    var saved: Option<seq<QueueItem>>
    /** `self._waiting_queue`, oldest first. */
    var waiting: seq<WorkerArgs>
    /** `self._workers`, by task id. */
    var workers: map<string, WorkerHandle>
    /** The events the bridge itself puts on `self._event_queue`, oldest first. */
    var eventQueue: seq<Event>

    /** A worker runs at a time: what sequential downloads promise. */
    predicate AtMostOneWorker()
      reads this
    {
      |workers| <= 1
    }

    /**
     * `__init__`: the settings as loaded, the queue file as `_load_queue`
     * reads it (`None` for a missing, unreadable or non-list file), no
     * waiting task and no worker.
     */
    constructor(initial: Settings, root: string, stored: Option<seq<StoredEntry>>)
      ensures settings == initial && savedSettings == initial && rootFolder == root
      ensures items == (if stored.Some? then LoadedAll(stored.value) else [])
      ensures stored.None? ==> saved == Some([])
      ensures stored.Some? && AnyRewritten(stored.value) ==> saved == Some(items)
      ensures stored.Some? && !AnyRewritten(stored.value) ==> saved == None
      ensures waiting == [] && workers == map[] && eventQueue == []
    {
      settings := initial;
      savedSettings := initial;
      rootFolder := root;
      items := [];
      saved := None;
      waiting := [];
      workers := map[];
      eventQueue := [];
      new;
      items := LoadQueue(stored);
    }

    /**
     * `_load_queue`: keeps the objects with a non-blank id, rewrites the
     * statuses of unfinished tasks, and writes the file back when it
     * rewrote any.
     */
    method LoadQueue(stored: Option<seq<StoredEntry>>) returns (loaded: seq<QueueItem>)
      modifies this`saved
      ensures loaded == (if stored.Some? then LoadedAll(stored.value) else [])
      ensures stored.None? ==> saved == Some([])
      ensures stored.Some? && AnyRewritten(stored.value) ==> saved == Some(loaded)
      ensures stored.Some? && !AnyRewritten(stored.value) ==> saved == old(saved)
    {
      if stored.None? {
        saved := Some([]);
        return [];
      }
      var entries := stored.value;
      loaded := [];
      var changed := false;
      var i := 0;
      while i < |entries|
        invariant 0 <= i <= |entries|
        invariant loaded == LoadedAll(entries[..i])
        invariant changed <==> exists k | 0 <= k < i :: Rewritten(entries[k])
      {
        assert entries[..i + 1][..i] == entries[..i];
        var item := LoadedItem(entries[i]);
        if item.Some? {
          loaded := loaded + [item.value];
          if Rewritten(entries[i]) {
            changed := true;
          }
        }
        i := i + 1;
      }
      assert entries[..i] == entries;
      if changed {
        saved := Some(loaded);
      }
    }

    /** `_add_queue_item`: appends the item and saves the queue. */
    method AddItem(item: QueueItem)
      modifies this`items, this`saved
      ensures items == old(items) + [item] && saved == Some(items)
    {
      items := items + [item];
      saved := Some(items);
    }

    /** `_start_worker`: registers a fresh worker under its task id. */
    method StartWorker(args: WorkerArgs)
      modifies this`workers
      ensures workers == old(workers)[args.taskId := WorkerHandle(args, false)]
    {
      workers := workers[args.taskId := WorkerHandle(args, false)];
    }

    /**
     * `start_download`: rejects an unsupported URL without touching
     * anything; otherwise records the chosen options in the settings, and
     * either puts the task at the end of the waiting list as `queued` or
     * records it as `downloading` and starts its worker.
     */
    method StartDownload(url: string, options: StartOptions, title: Option<string>, taskId: string, supported: string -> bool)
      returns (reply: Reply)
      modifies this`settings, this`savedSettings, this`items, this`saved, this`waiting, this`workers
      ensures !supported(url) ==> reply == Failure("Invalid URL")
      ensures !supported(url) ==> settings == old(settings) && items == old(items) && waiting == old(waiting) && workers == old(workers)
      ensures !supported(url) ==> saved == old(saved) && savedSettings == old(savedSettings)
      ensures supported(url) ==> saved == Some(items)
      ensures supported(url) ==> savedSettings == settings && settings == Settings(rootFolder,
        options.mp4.GetOr(old(settings).mp4), options.sequential.GetOr(old(settings).sequential))
      ensures supported(url) ==> var args := WorkerArgs(taskId, url, rootFolder, title,
          options.mp4.GetOr(old(settings).mp4), options.startSeconds.GetOr(0.0), options.endSeconds);
        var queued := Queues(settings.sequential, |old(workers)|, old(waiting));
        reply == Accepted(Some(taskId), queued)
        && items == old(items) + [QueueItem(taskId, url, ItemTitle(title, url), if queued then "queued" else "downloading", "", "")]
        && (queued ==> waiting == old(waiting) + [args] && workers == old(workers))
        && (!queued ==> waiting == old(waiting) && workers == old(workers)[taskId := WorkerHandle(args, false)])
      ensures supported(url) && settings.sequential && old(AtMostOneWorker()) ==> AtMostOneWorker()
    {
      if !supported(url) {
        return Failure("Invalid URL");
      }
      var mp4 := options.mp4.GetOr(settings.mp4);
      var sequential := options.sequential.GetOr(settings.sequential);
      var args := WorkerArgs(taskId, url, rootFolder, title, mp4, options.startSeconds.GetOr(0.0), options.endSeconds);
      settings := Settings(rootFolder, mp4, sequential);
      savedSettings := settings;
      var activeWorkers := |workers|;
      if sequential && (activeWorkers > 0 || waiting != []) {
        waiting := waiting + [args];
        AddItem(QueueItem(taskId, url, ItemTitle(title, url), "queued", "", ""));
        return Accepted(Some(taskId), true);
      }
      AddItem(QueueItem(taskId, url, ItemTitle(title, url), "downloading", "", ""));
      StartWorker(args);
      reply := Accepted(Some(taskId), false);
    }

    /** The loop of `_remove_from_waiting`: drops the first waiting entry of the task, if any. */
    method RemoveFromWaiting(taskId: string) returns (removed: bool)
      modifies this`waiting
      ensures removed <==> FirstWaiting(old(waiting), taskId).Some?
      ensures waiting == WithoutFirstWaiting(old(waiting), taskId)
    {
      var i := 0;
      while i < |waiting|
        invariant 0 <= i <= |waiting|
        invariant forall j | 0 <= j < i :: waiting[j].taskId != taskId
      {
        if waiting[i].taskId == taskId {
          FirstWaitingAt(waiting, taskId, i);
          waiting := waiting[..i] + waiting[i + 1..];
          return true;
        }
        i := i + 1;
      }
      removed := false;
    }

    /** The loop of `_mark_status` and `_update_queue_from_event`: the first item of the task. */
    method FindItem(taskId: string) returns (index: Option<nat>)
      ensures index == FirstIndex(items, taskId)
    {
      var i := 0;
      while i < |items|
        invariant 0 <= i <= |items|
        invariant forall j | 0 <= j < i :: items[j].id != taskId
      {
        if items[i].id == taskId {
          FirstIndexAt(items, taskId, i);
          return Some(i);
        }
        i := i + 1;
      }
      index := None;
    }

    /** `_mark_status`: updates the first item of the task and saves the queue when there is one. */
    method MarkStatus(taskId: string, status: string, error: Option<string>)
      modifies this`items, this`saved
      ensures items == MarkedItems(old(items), taskId, status, error)
      ensures saved == SavedAfterMark(old(items), taskId, items, old(saved))
    {
      var index := FindItem(taskId);
      if index.Some? {
        items := items[index.value := Marked(items[index.value], status, error)];
        saved := Some(items);
      }
    }

    /**
     * `cancel_download`, with the effect its author intended (as written it
     * blocks on its own lock when the task has no worker): a waiting task is
     * taken off the waiting list, marked `cancelled` and announced by a
     * `finished` event; a running task's worker is told to cancel; any
     * other task is not found.
     */
    method CancelDownload(taskId: string) returns (reply: Reply)
      modifies this`waiting, this`items, this`saved, this`eventQueue, this`workers
      ensures taskId in old(workers) ==>
        reply == Accepted(Some(taskId), false)
        && workers == old(workers)[taskId := old(workers)[taskId].(cancelRequested := true)]
        && waiting == old(waiting) && items == old(items) && eventQueue == old(eventQueue)
      ensures taskId !in old(workers) && FirstWaiting(old(waiting), taskId).Some? ==>
        reply == Accepted(Some(taskId), false) && workers == old(workers)
        && waiting == WithoutFirstWaiting(old(waiting), taskId)
        && items == MarkedItems(old(items), taskId, "cancelled", None)
        && saved == SavedAfterMark(old(items), taskId, items, old(saved))
        && eventQueue == old(eventQueue) + [Finished(taskId, true, None)]
      ensures taskId !in old(workers) && FirstWaiting(old(waiting), taskId).None? ==>
        reply == Failure("Task not found")
        && workers == old(workers) && waiting == old(waiting) && items == old(items) && eventQueue == old(eventQueue)
      ensures taskId in old(workers) || FirstWaiting(old(waiting), taskId).None? ==> saved == old(saved)
      ensures |workers| == |old(workers)|
    {
      if taskId !in workers {
        var removed := RemoveFromWaiting(taskId);
        if removed {
          MarkStatus(taskId, "cancelled", None);
          eventQueue := eventQueue + [Finished(taskId, true, None)];
          return Accepted(Some(taskId), false);
        }
        return Failure("Task not found");
      }
      workers := workers[taskId := workers[taskId].(cancelRequested := true)];
      reply := Accepted(Some(taskId), false);
    }

    /** `remove_task`: drops every item of the task and its waiting entry, running or not. */
    method RemoveTask(taskId: string) returns (reply: Reply)
      modifies this`items, this`saved, this`waiting
      ensures reply == Accepted(Some(taskId), false)
      ensures items == WithoutId(old(items), taskId) && saved == Some(items)
      ensures waiting == WithoutFirstWaiting(old(waiting), taskId)
    {
      items := WithoutId(items, taskId);
      saved := Some(items);
      var _ := RemoveFromWaiting(taskId);
      reply := Accepted(Some(taskId), false);
    }

    /** `perform_clear`: empties the queue and the waiting list and tells every worker to cancel. */
    method PerformClear() returns (reply: Reply)
      modifies this`items, this`saved, this`waiting, this`workers
      ensures reply == Accepted(None, false)
      ensures items == [] && saved == Some([]) && waiting == []
      ensures workers.Keys == old(workers).Keys
      ensures forall id | id in workers :: workers[id] == old(workers)[id].(cancelRequested := true)
    {
      waiting := [];
      items := [];
      saved := Some([]);
      workers := map id | id in workers :: workers[id].(cancelRequested := true);
      reply := Accepted(None, false);
    }

    /**
     * `update_setting`: the root folder (as `resolve` makes it absolute, or
     * `None` when the path cannot be formed), or the truth value of `mp4`
     * or `sequential`; any other key is refused. Settings are saved after a
     * change.
     */
    method UpdateSetting(key: string, value: SettingValue, resolve: SettingValue -> Option<string>) returns (reply: Reply)
      modifies this`settings, this`savedSettings, this`rootFolder
      ensures key == "root_folder" && resolve(value).None? ==>
        reply == Failure("Invalid path") && settings == old(settings)
        && rootFolder == old(rootFolder) && savedSettings == old(savedSettings)
      ensures key != "root_folder" ==> rootFolder == old(rootFolder)
      ensures key == "root_folder" && resolve(value).Some? ==>
        reply == Accepted(None, false) && rootFolder == resolve(value).value
        && settings == old(settings).(rootFolder := rootFolder) && savedSettings == settings
      ensures key == "mp4" ==> reply == Accepted(None, false) && settings == old(settings).(mp4 := Truthy(value)) && savedSettings == settings
      ensures key == "sequential" ==>
        reply == Accepted(None, false) && settings == old(settings).(sequential := Truthy(value)) && savedSettings == settings
      ensures key !in {"root_folder", "mp4", "sequential"} ==>
        reply == Failure("Unknown setting") && settings == old(settings) && savedSettings == old(savedSettings)
    {
      if key == "root_folder" {
        var folder := resolve(value);
        if folder.None? {
          return Failure("Invalid path");
        }
        rootFolder := folder.value;
        settings := settings.(rootFolder := rootFolder);
      } else if key == "mp4" {
        settings := settings.(mp4 := Truthy(value));
      } else if key == "sequential" {
        settings := settings.(sequential := Truthy(value));
      } else {
        return Failure("Unknown setting");
      }
      savedSettings := settings;
      reply := Accepted(None, false);
    }

    /**
     * `_process_queue`: while no worker is registered, starts the oldest
     * waiting task, marks it `downloading` and announces the status.
     */
    method ProcessQueue()
      modifies this`waiting, this`items, this`saved, this`eventQueue, this`workers
      ensures old(workers) != map[] || old(waiting) == [] ==>
        waiting == old(waiting) && items == old(items) && saved == old(saved)
        && eventQueue == old(eventQueue) && workers == old(workers)
      ensures old(workers) == map[] && old(waiting) != [] ==>
        var next := old(waiting)[0];
        waiting == old(waiting)[1..]
        && workers == map[next.taskId := WorkerHandle(next, false)]
        && items == MarkedItems(old(items), next.taskId, "downloading", Some(""))
        && saved == SavedAfterMark(old(items), next.taskId, items, old(saved))
        && eventQueue == old(eventQueue) + [Status(next.taskId, "downloading")]
      ensures old(AtMostOneWorker()) ==> AtMostOneWorker()
    {
      if workers != map[] || waiting == [] {
        return;
      }
      var next := waiting[0];
      waiting := waiting[1..];
      MarkStatus(next.taskId, "downloading", Some(""));
      eventQueue := eventQueue + [Status(next.taskId, "downloading")];
      StartWorker(next);
    }

    /** `_update_queue_from_event`: applies the event to its task's first item, saving unless only a title changed. */
    method UpdateQueueFromEvent(e: Event)
      modifies this`items, this`saved
      ensures items == UpdatedItems(old(items), e)
      ensures saved == SavedAfterEvent(old(items), e, old(saved))
    {
      if e.taskId == [] {
        return;
      }
      var index := FindItem(e.taskId);
      if index.Some? {
        items := items[index.value := Applied(items[index.value], e)];
        if Persists(e) {
          saved := Some(items);
        }
      }
    }

    /**
     * One pass of `_dispatch_events`'s loop over an event: a `finished`
     * event reaps its worker once the thread has ended (`alive` says
     * whether it still runs), the queue is updated, and a `done`, `error`
     * or `finished` event lets the next waiting task start.
     */
    method HandleEvent(e: Event, alive: bool)
      modifies this`waiting, this`items, this`saved, this`eventQueue, this`workers
      ensures !Admits(e) ==>
        workers == old(workers) && waiting == old(waiting) && eventQueue == old(eventQueue)
        && items == UpdatedItems(old(items), e) && saved == SavedAfterEvent(old(items), e, old(saved))
      ensures Admits(e) && (Reaped(old(workers), e, alive) != map[] || old(waiting) == []) ==>
        workers == Reaped(old(workers), e, alive) && waiting == old(waiting) && eventQueue == old(eventQueue)
        && items == UpdatedItems(old(items), e) && saved == SavedAfterEvent(old(items), e, old(saved))
      ensures Admits(e) && Reaped(old(workers), e, alive) == map[] && old(waiting) != [] ==>
        var next := old(waiting)[0];
        waiting == old(waiting)[1..]
        && workers == map[next.taskId := WorkerHandle(next, false)]
        && items == MarkedItems(UpdatedItems(old(items), e), next.taskId, "downloading", Some(""))
        && saved == SavedAfterMark(UpdatedItems(old(items), e), next.taskId, items, SavedAfterEvent(old(items), e, old(saved)))
        && eventQueue == old(eventQueue) + [Status(next.taskId, "downloading")]
      ensures old(AtMostOneWorker()) ==> AtMostOneWorker()
    {
      if e.Finished? && e.taskId in workers && !alive {
        workers := workers - {e.taskId};
      }
      UpdateQueueFromEvent(e);
      if Admits(e) {
        ProcessQueue();
      }
    }

    /** A worker puts an event on the shared queue. */
    method Post(e: Event)
      modifies this`eventQueue
      ensures eventQueue == old(eventQueue) + [e]
    {
      eventQueue := eventQueue + [e];
    }

    /** `_dispatch_events` takes the oldest event off the queue, if there is one, and handles it. */
    method DispatchNext(alive: bool)
      modifies this`waiting, this`items, this`saved, this`eventQueue, this`workers
      ensures old(eventQueue) == [] ==>
        eventQueue == [] && workers == old(workers) && items == old(items) && waiting == old(waiting) && saved == old(saved)
      ensures old(eventQueue) != [] ==>
        var e := old(eventQueue)[0];
        !Admits(e) ==>
          workers == old(workers) && waiting == old(waiting) && eventQueue == old(eventQueue)[1..]
          && items == UpdatedItems(old(items), e) && saved == SavedAfterEvent(old(items), e, old(saved))
      ensures old(eventQueue) != [] ==>
        var e := old(eventQueue)[0];
        Admits(e) && (Reaped(old(workers), e, alive) != map[] || old(waiting) == []) ==>
          workers == Reaped(old(workers), e, alive) && waiting == old(waiting) && eventQueue == old(eventQueue)[1..]
          && items == UpdatedItems(old(items), e) && saved == SavedAfterEvent(old(items), e, old(saved))
      ensures old(eventQueue) != [] && old(waiting) != [] ==>
        var e, next := old(eventQueue)[0], old(waiting)[0];
        Admits(e) && Reaped(old(workers), e, alive) == map[] ==>
          waiting == old(waiting)[1..]
          && workers == map[next.taskId := WorkerHandle(next, false)]
          && items == MarkedItems(UpdatedItems(old(items), e), next.taskId, "downloading", Some(""))
          && saved == SavedAfterMark(UpdatedItems(old(items), e), next.taskId, items, SavedAfterEvent(old(items), e, old(saved)))
          && eventQueue == old(eventQueue)[1..] + [Status(next.taskId, "downloading")]
      ensures old(AtMostOneWorker()) ==> AtMostOneWorker()
    {
      if eventQueue != [] {
        var e := eventQueue[0];
        eventQueue := eventQueue[1..];
        HandleEvent(e, alive);
      }
    }
  }

  /** The first waiting entry of the task is the one a scan from the front finds. */
  lemma FirstWaitingAt(waiting: seq<WorkerArgs>, id: string, i: nat)
    requires i < |waiting| && waiting[i].taskId == id
    requires forall j | 0 <= j < i :: waiting[j].taskId != id
    ensures FirstWaiting(waiting, id) == Some(i)
  {
  }

  /** The first item of the task is the one a scan from the front finds. */
  lemma FirstIndexAt(items: seq<QueueItem>, id: string, i: nat)
    requires i < |items| && items[i].id == id
    requires forall j | 0 <= j < i :: items[j].id != id
    ensures FirstIndex(items, id) == Some(i)
  {
  }
}
