/**
 * The task bookkeeping of the desktop window (`DownloaderUI`): the persisted
 * queue state and its records, the task rows, the running workers and the
 * `task-N` counter. Dialogs, layout and logging are left out; a dialog's
 * answer is a parameter, and so is whether a worker thread is alive.
 *
 * `queue_records` maps each task id to the very dict that sits in
 * `queue_state["items"]`, so the model keeps the items alone and finds a
 * task's record by its id, which `Valid` keeps unique.
 */
module App {
  import opened Wrappers
  import Text
  import Utils
  import opened Events

  /** A value of the saved queue file: a string, or anything else as `str` shows it, with its truth value. */
  datatype JsonValue = JStr(s: string) | JOther(shown: string, truthy: bool)

  /** `str(value)`. */
  function Shown(v: JsonValue): string {
    match v
    case JStr(s) => s
    case JOther(shown, _) => shown
  }

  /** Python's truth value. */
  predicate IsTruthy(v: JsonValue) {
    match v
    case JStr(s) => s != []
    case JOther(_, truthy) => truthy
  }

  /** An element of the file's `items`: an object, or anything else. */
  datatype RawEntry = Object(fields: map<string, JsonValue>) | NotObject

  /** The file's top-level object: its `items`, and `next_id` when that is an int. */
  datatype StoredQueue = StoredQueue(entries: seq<RawEntry>, nextId: Option<int>)

  /** One task's record; an absent `error` key is `None`. */
  datatype Record = Record(
    taskId: string, title: string, status: string, path: Option<string>, url: Option<string>,
    createdAt: string, error: Option<string>)

  /** What `_save_queue_state` writes. */
  datatype SavedQueue = SavedQueue(nextId: int, items: seq<Record>)

  /** What the window keeps of a task's row. */
  datatype Row = Row(fullTitle: string, status: string, finalPath: Option<string>, sourceUrl: Option<string>, cancelling: bool)

  /** A started worker's arguments, and whether `cancel` was called on it. */
  datatype WorkerRun = WorkerRun(
    url: string, root: string, title: Option<string>, separateFolder: bool,
    startSeconds: real, endSeconds: Option<real>, language: string, cancelRequested: bool)

  /**
   * The keyword arguments of `_update_queue_record`: `None` for a key not
   * passed; `path` and `error` carry Python's `None` as an inner `None`.
   */
  datatype Changes = Changes(status: Option<string>, title: Option<string>, path: Option<Option<string>>, error: Option<Option<string>>)

  /** What `_start_worker` did: started a task, or showed the message with this key and stopped. */
  datatype StartResult = Started(taskId: string) | Refused(message: string)

  const AllowedStatuses: set<string> := {"waiting", "downloading", "converting", "done", "error", "cancelled"}
  const ActiveStatuses: set<string> := {"downloading", "converting"}

  // ---------------------------------------------------------------------------
  // Ids

  /** The task ids of the records. */
  function Ids(items: seq<Record>): set<string> {
    set i | 0 <= i < |items| :: items[i].taskId
  }

  lemma IdsAppend(a: seq<Record>, b: seq<Record>)
    ensures Ids(a + b) == Ids(a) + Ids(b)
  {
    var ab := a + b;
    forall id | id in Ids(a + b)
      ensures id in Ids(a) + Ids(b)
    {
      var k :| 0 <= k < |ab| && ab[k].taskId == id;
      if k >= |a| {
        assert b[k - |a|].taskId == id;
      }
    }
    forall id | id in Ids(a) + Ids(b)
      ensures id in Ids(a + b)
    {
      if id in Ids(a) {
        var k :| 0 <= k < |a| && a[k].taskId == id;
        assert ab[k].taskId == id;
      } else {
        var k :| 0 <= k < |b| && b[k].taskId == id;
        assert ab[|a| + k].taskId == id;
      }
    }
  }

  /** A helper for the proofs that append one record: the ids of a single record. */
  lemma IdsSingle(r: Record)
    ensures Ids([r]) == {r.taskId}
  {
    assert [r][0].taskId == r.taskId;
  }

  /** The task ids in the records' order. */
  function TaskIds(items: seq<Record>): (r: seq<string>)
    ensures |r| == |items| && forall i | 0 <= i < |items| :: r[i] == items[i].taskId
  {
    seq(|items|, i requires 0 <= i < |items| => items[i].taskId)
  }

  predicate UniqueIds(items: seq<Record>) {
    forall i, j | 0 <= i < j < |items| :: items[i].taskId != items[j].taskId
  }

  /** The position of the task's record. */
  function IndexOf(items: seq<Record>, id: string): (r: Option<nat>)
    ensures r.Some? ==> r.value < |items| && items[r.value].taskId == id
    ensures r.None? <==> id !in Ids(items)
  {
    if items == [] then None
    else if items[0].taskId == id then Some(0)
    else match IndexOf(items[1..], id)
      case Some(k) => Some(k + 1)
      case None =>
        assert Ids(items) == {items[0].taskId} + Ids(items[1..]);
        None
  }

  /** `int(str(task_id).split("-")[-1])`, for a suffix of ASCII digits. */
  function Suffix(id: string): Option<nat> {
    var parts := Text.Split(id, '-');
    Text.ParseNat(parts[|parts| - 1])
  }

  /** `f"task-{counter}"`. */
  function TaskIdOf(counter: nat): string {
    "task-" + Text.NatToString(counter)
  }

  /** The counter reads back from the suffix of the id it names. */
  lemma SuffixOfTaskId(counter: nat)
    ensures Suffix(TaskIdOf(counter)) == Some(counter)
  {
    var digits := Text.NatToString(counter);
    assert forall i | 0 <= i < |digits| :: digits[i] != '-';
    Text.SplitNoSep(digits, '-');
    assert "task" + ['-'] + digits == TaskIdOf(counter);
    Text.SplitAppend("task", digits, '-');
    Text.ParseNatToString(counter);
  }

  /** A counter beyond every numeric suffix names an id no record has. */
  lemma TaskIdFresh(items: seq<Record>, counter: nat)
    requires forall r | r in items :: Suffix(r.taskId).Some? ==> Suffix(r.taskId).value < counter
    ensures TaskIdOf(counter) !in Ids(items)
  {
    SuffixOfTaskId(counter);
  }

  /** The largest numeric suffix among the ids, 0 when there is none. */
  function MaxSuffix(items: seq<Record>): nat {
    if items == [] then 0
    else
      var m := MaxSuffix(items[..|items| - 1]);
      var suffix := Suffix(items[|items| - 1].taskId);
      if suffix.Some? && suffix.value > m then suffix.value else m
  }

  /** `MaxSuffix` bounds every numeric suffix, and is one of them unless it is 0. */
  lemma {:induction false} MaxSuffixBounds(items: seq<Record>)
    ensures forall r | r in items :: Suffix(r.taskId).Some? ==> Suffix(r.taskId).value <= MaxSuffix(items)
    ensures MaxSuffix(items) == 0 || exists r | r in items :: Suffix(r.taskId) == Some(MaxSuffix(items))
  {
    if items != [] {
      var init := items[..|items| - 1];
      MaxSuffixBounds(init);
      assert items == init + [items[|items| - 1]];
      assert forall r | r in init :: r in items;
    }
  }

  /**
   * `_compute_next_task_counter`: one more than the largest numeric suffix
   * of an id and than a positive stored `next_id` less one, and at least 1.
   */
  method ComputeNextTaskCounter(items: seq<Record>, nextId: int) returns (counter: nat)
    ensures counter >= 1
    ensures forall r | r in items :: Suffix(r.taskId).Some? ==> Suffix(r.taskId).value < counter
    ensures nextId > 0 ==> counter >= nextId
    ensures counter == 1 || counter == nextId || exists r | r in items :: Suffix(r.taskId) == Some(counter - 1)
  {
    var maxId: nat := 0;
    var i := 0;
    while i < |items|
      invariant 0 <= i <= |items|
      invariant maxId == MaxSuffix(items[..i])
    {
      assert items[..i + 1][..i] == items[..i];
      var suffix := Suffix(items[i].taskId);
      if suffix.Some? && suffix.value > maxId {
        maxId := suffix.value;
      }
      i := i + 1;
    }
    assert items[..i] == items;
    MaxSuffixBounds(items);
    if nextId > 0 && nextId - 1 > maxId {
      maxId := nextId - 1;
    }
    counter := maxId + 1;
  }

  // ---------------------------------------------------------------------------
  // Loading the queue state

  /** A stripped string value, and `""` for a missing or non-string one. */
  function TextField(fields: map<string, JsonValue>, key: string): string {
    if key in fields && fields[key].JStr? then Text.Strip(fields[key].s) else ""
  }

  /** `value or None` for a text. */
  function NonEmpty(s: string): (r: Option<string>)
    ensures r.Some? <==> s != []
    ensures r.Some? ==> r.value == s
  {
    if s != [] then Some(s) else None
  }

  /**
   * The status `_load_queue_state` gives an entry: `done` when absent or
   * unknown, `cancelled` for a task that was still downloading or
   * converting, the stored one otherwise.
   */
  function LoadedStatus(fields: map<string, JsonValue>): (r: string)
    ensures r in AllowedStatuses && r !in ActiveStatuses
  {
    var stored := if "status" in fields && IsTruthy(fields["status"]) then Shown(fields["status"]) else "done";
    var known := if stored !in AllowedStatuses then (if stored in ActiveStatuses then "cancelled" else "done") else stored;
    if known in ActiveStatuses then "cancelled" else known
  }

  /** The record an entry becomes, ignoring duplicates; `created_at` defaults to `now`. */
  function LoadedRecord(e: RawEntry, now: string): (r: Option<Record>)
    ensures r.Some? <==> e.Object? && Text.Strip(if "task_id" in e.fields then Shown(e.fields["task_id"]) else "") != []
    ensures r.Some? ==> r.value.taskId != [] && r.value.status in AllowedStatuses && r.value.status !in ActiveStatuses
    ensures r.Some? ==> var f := e.fields;
      r.value.taskId == Text.Strip(if "task_id" in f then Shown(f["task_id"]) else "")
      && r.value.title == (if "title" in f && IsTruthy(f["title"]) then Shown(f["title"]) else r.value.taskId)
      && r.value.path == NonEmpty(TextField(f, "path")) && r.value.url == NonEmpty(TextField(f, "url"))
      && (r.value.createdAt == now <==> !("created_at" in f && f["created_at"].JStr? && f["created_at"].s != []) || f["created_at"].s == now)
      && (r.value.error.Some? <==> "error" in f && f["error"].JStr? && f["error"].s != [])
  {
    match e
    case NotObject => None
    case Object(f) =>
      var id := Text.Strip(if "task_id" in f then Shown(f["task_id"]) else "");
      if id == [] then None
      else
        var title := if "title" in f && IsTruthy(f["title"]) then Shown(f["title"]) else id;
        var created := if "created_at" in f && f["created_at"].JStr? && f["created_at"].s != [] then f["created_at"].s else now;
        var error := if "error" in f && f["error"].JStr? && f["error"].s != [] then Some(f["error"].s) else None;
        Some(Record(id, title, LoadedStatus(f), NonEmpty(TextField(f, "path")), NonEmpty(TextField(f, "url")), created, error))
  }

  /** The status a stored entry keeps, and the one its unfinished download is turned into. */
  lemma LoadedStatusCases(fields: map<string, JsonValue>)
    ensures "status" !in fields || !IsTruthy(fields["status"]) ==> LoadedStatus(fields) == "done"
    ensures "status" in fields && IsTruthy(fields["status"]) && Shown(fields["status"]) in ActiveStatuses ==>
      LoadedStatus(fields) == "cancelled"
    ensures "status" in fields && IsTruthy(fields["status"]) && Shown(fields["status"]) !in AllowedStatuses ==>
      LoadedStatus(fields) == "done"
    ensures "status" in fields && IsTruthy(fields["status"]) && Shown(fields["status"]) in AllowedStatuses - ActiveStatuses ==>
      LoadedStatus(fields) == Shown(fields["status"])
  {
  }

  /** What each entry becomes, before duplicates are dropped. */
  function Parsed(entries: seq<RawEntry>, now: string): (r: seq<Option<Record>>)
    ensures |r| == |entries| && forall i | 0 <= i < |entries| :: r[i] == LoadedRecord(entries[i], now)
  {
    seq(|entries|, i requires 0 <= i < |entries| => LoadedRecord(entries[i], now))
  }

  /** The first record of each id, in order. */
  function Kept(parsed: seq<Option<Record>>): (r: seq<Record>)
    ensures |r| <= |parsed|
  {
    if parsed == [] then []
    else
      var before := Kept(parsed[..|parsed| - 1]);
      var r := parsed[|parsed| - 1];
      if r.Some? && r.value.taskId !in Ids(before) then before + [r.value] else before
  }

  /** The records `_load_queue_state` keeps: the first of each id, in the file's order. */
  function LoadedRecords(entries: seq<RawEntry>, now: string): (r: seq<Record>)
    ensures |r| <= |entries|
  {
    Kept(Parsed(entries, now))
  }

  /** Whether a parsed entry is a record of this id. */
  predicate Carries(r: Option<Record>, id: string) {
    r.Some? && r.value.taskId == id
  }

  /** Appending a record of a new id keeps the ids unique. */
  lemma UniqueSnoc(a: seq<Record>, x: Record)
    requires UniqueIds(a) && x.taskId !in Ids(a)
    ensures UniqueIds(a + [x])
  {
    var ax := a + [x];
    forall i, j | 0 <= i < j < |ax|
      ensures ax[i].taskId != ax[j].taskId
    {
      assert ax[i] == a[i];
      if j < |a| {
        assert ax[j] == a[j];
      }
    }
  }

  /** Prepending a record of a new id keeps the ids unique. */
  lemma UniqueCons(x: Record, a: seq<Record>)
    requires UniqueIds(a) && x.taskId !in Ids(a)
    ensures UniqueIds([x] + a)
  {
    var xa := [x] + a;
    forall i, j | 0 <= i < j < |xa|
      ensures xa[i].taskId != xa[j].taskId
    {
      assert xa[j] == a[j - 1];
      if i > 0 {
        assert xa[i] == a[i - 1];
      }
    }
  }

  /** The head of unique records does not occur in the tail, which is unique too. */
  lemma UniqueTail(items: seq<Record>)
    requires UniqueIds(items) && items != []
    ensures UniqueIds(items[1..]) && items[0].taskId !in Ids(items[1..])
    ensures Ids(items) == {items[0].taskId} + Ids(items[1..])
  {
    assert items == [items[0]] + items[1..];
    IdsAppend([items[0]], items[1..]);
    IdsSingle(items[0]);
    forall k | 0 <= k < |items| - 1
      ensures items[1..][k].taskId != items[0].taskId
    {
      assert items[1..][k] == items[k + 1];
    }
  }

  /** The kept ids are unique, and every kept record is one of the parsed ones. */
  lemma {:induction false} KeptUnique(parsed: seq<Option<Record>>)
    ensures UniqueIds(Kept(parsed))
    ensures forall r | r in Kept(parsed) :: Some(r) in parsed
  {
    if parsed != [] {
      var init := parsed[..|parsed| - 1];
      KeptUnique(init);
      var r := parsed[|parsed| - 1];
      assert forall x | x in init :: x in parsed;
      if r.Some? && r.value.taskId !in Ids(Kept(init)) {
        UniqueSnoc(Kept(init), r.value);
      }
    }
  }

  /** The loaded ids are unique and non-empty, and no loaded task is left downloading or converting. */
  lemma LoadedRecordsUnique(entries: seq<RawEntry>, now: string)
    ensures UniqueIds(LoadedRecords(entries, now))
    ensures forall r | r in LoadedRecords(entries, now) :: r.taskId != [] && r.status !in ActiveStatuses
  {
    KeptUnique(Parsed(entries, now));
  }

  /** Every parsed record's id is among the kept ones. */
  lemma {:induction false} KeptCover(parsed: seq<Option<Record>>)
    ensures forall k | 0 <= k < |parsed| && parsed[k].Some? :: parsed[k].value.taskId in Ids(Kept(parsed))
  {
    if parsed != [] {
      var init := parsed[..|parsed| - 1];
      KeptCover(init);
      var before := Kept(init);
      var r := parsed[|parsed| - 1];
      var after := Kept(parsed);
      if r.Some? && r.value.taskId !in Ids(before) {
        assert after == before + [r.value];
        IdsAppend(before, [r.value]);
        IdsSingle(r.value);
      } else {
        assert after == before;
      }
      forall k | 0 <= k < |parsed| && parsed[k].Some?
        ensures parsed[k].value.taskId in Ids(after)
      {
        if k < |init| {
          assert parsed[k] == init[k];
        }
      }
    }
  }

  /** Every entry that has an id is represented among the loaded records. */
  lemma LoadedRecordsCover(entries: seq<RawEntry>, now: string)
    ensures forall k | 0 <= k < |entries| && LoadedRecord(entries[k], now).Some? ::
      LoadedRecord(entries[k], now).value.taskId in Ids(LoadedRecords(entries, now))
  {
    KeptCover(Parsed(entries, now));
  }

  /** Each kept record is the first parsed record of its id. */
  lemma {:induction false} KeptFirst(parsed: seq<Option<Record>>)
    ensures forall i | 0 <= i < |Kept(parsed)| :: exists k | 0 <= k < |parsed| ::
      parsed[k] == Some(Kept(parsed)[i]) && forall j | 0 <= j < k :: !Carries(parsed[j], Kept(parsed)[i].taskId)
  {
    if parsed != [] {
      var init := parsed[..|parsed| - 1];
      KeptFirst(init);
      KeptCover(init);
      var before := Kept(init);
      var after := Kept(parsed);
      var r := parsed[|parsed| - 1];
      var added := r.Some? && r.value.taskId !in Ids(before);
      assert after == if added then before + [r.value] else before;
      forall i | 0 <= i < |after|
        ensures exists k | 0 <= k < |parsed| ::
          parsed[k] == Some(after[i]) && forall j | 0 <= j < k :: !Carries(parsed[j], after[i].taskId)
      {
        if i < |before| {
          assert after[i] == before[i];
          var k :| 0 <= k < |init| && init[k] == Some(before[i])
            && forall j | 0 <= j < k :: !Carries(init[j], before[i].taskId);
          assert parsed[k] == init[k];
          assert forall j | 0 <= j < k :: parsed[j] == init[j];
        } else {
          assert added && after[i] == r.value;
          forall j | 0 <= j < |parsed| - 1
            ensures !Carries(parsed[j], after[i].taskId)
          {
            assert parsed[j] == init[j];
          }
          assert parsed[|parsed| - 1] == Some(after[i]);
        }
      }
    } else {
      assert Kept(parsed) == [];
    }
  }

  /** Each loaded record is the one of the first entry that has its id. */
  lemma LoadedRecordsFirst(entries: seq<RawEntry>, now: string)
    ensures forall i | 0 <= i < |LoadedRecords(entries, now)| :: exists k | 0 <= k < |entries| ::
      LoadedRecord(entries[k], now) == Some(LoadedRecords(entries, now)[i])
      && forall j | 0 <= j < k :: !Carries(LoadedRecord(entries[j], now), LoadedRecords(entries, now)[i].taskId)
  {
    var parsed := Parsed(entries, now);
    var kept := LoadedRecords(entries, now);
    KeptFirst(parsed);
    forall i | 0 <= i < |kept|
      ensures exists k | 0 <= k < |entries| ::
        LoadedRecord(entries[k], now) == Some(kept[i]) && forall j | 0 <= j < k :: !Carries(LoadedRecord(entries[j], now), kept[i].taskId)
    {
      var k :| 0 <= k < |parsed| && parsed[k] == Some(kept[i]) && forall j | 0 <= j < k :: !Carries(parsed[j], kept[i].taskId);
      assert forall j | 0 <= j < k :: parsed[j] == LoadedRecord(entries[j], now);
    }
  }

  /** `_load_queue_state` as its callers see it: the records and `next_id`. */
  function LoadedState(stored: Option<StoredQueue>, now: string): (r: (seq<Record>, int))
    ensures r.1 >= 1
    ensures stored.None? ==> r.0 == [] && r.1 == 1
    ensures stored.Some? ==> |r.0| <= |stored.value.entries| && r.0 == LoadedRecords(stored.value.entries, now)
    ensures stored.Some? && stored.value.nextId.Some? && stored.value.nextId.value >= 1 ==> r.1 == stored.value.nextId.value
    ensures stored.Some? && (stored.value.nextId.None? || stored.value.nextId.value < 1) ==> r.1 == 1
  {
    match stored
    case None => ([], 1)
    case Some(q) => (LoadedRecords(q.entries, now), if q.nextId.Some? && q.nextId.value >= 1 then q.nextId.value else 1)
  }

  /**
   * `_load_queue_state`: the default state for a missing, unreadable or
   * non-object file; otherwise the first record of each id and a `next_id`
   * of at least 1.
   */
  method LoadQueueState(stored: Option<StoredQueue>, now: string) returns (items: seq<Record>, nextId: int)
    ensures (items, nextId) == LoadedState(stored, now)
    ensures nextId >= 1
  {
    if stored.None? {
      return [], 1;
    }
    var entries := stored.value.entries;
    items := [];
    var seen: set<string> := {};
    var i := 0;
    while i < |entries|
      invariant 0 <= i <= |entries|
      invariant items == Kept(Parsed(entries[..i], now))
      invariant seen == Ids(items)
    {
      var record := LoadedRecord(entries[i], now);
      assert Parsed(entries[..i + 1], now)[..i] == Parsed(entries[..i], now);
      assert Parsed(entries[..i + 1], now)[i] == record;
      if record.Some? && record.value.taskId !in seen {
        IdsAppend(items, [record.value]);
        IdsSingle(record.value);
        seen := seen + {record.value.taskId};
        items := items + [record.value];
      }
      i := i + 1;
    }
    assert entries[..i] == entries;
    var stored := stored.value.nextId;
    nextId := if stored.Some? && stored.value >= 1 then stored.value else 1;
  }

  // ---------------------------------------------------------------------------
  // Record updates

  /** `_update_queue_record` on one record: a falsy path is stored as `None`, a falsy error removes the key. */
  function Changed(r: Record, c: Changes): (out: Record)
    ensures out.taskId == r.taskId && out.url == r.url && out.createdAt == r.createdAt
    ensures out.status == c.status.GetOr(r.status) && out.title == c.title.GetOr(r.title)
    ensures c.path.None? ==> out.path == r.path
    ensures c.path.Some? ==> (out.path.Some? <==> c.path.value.Some? && c.path.value.value != [])
    ensures c.path.Some? && out.path.Some? ==> out.path == c.path.value
    ensures c.error.None? ==> out.error == r.error
    ensures c.error.Some? ==> (out.error.Some? <==> c.error.value.Some? && c.error.value.value != [])
    ensures c.error.Some? && out.error.Some? ==> out.error == c.error.value
  {
    r.(status := c.status.GetOr(r.status), title := c.title.GetOr(r.title),
       path := if c.path.Some? then (if c.path.value.Some? then NonEmpty(c.path.value.value) else None) else r.path,
       error := if c.error.Some? then (if c.error.value.Some? then NonEmpty(c.error.value.value) else None) else r.error)
  }

  /** The records after `_update_queue_record`: the task's record changed, nothing for an unknown task. */
  function ApplyChanges(items: seq<Record>, id: string, c: Changes): (r: seq<Record>)
    ensures |r| == |items| && Ids(r) == Ids(items)
    ensures forall i | 0 <= i < |items| :: r[i].taskId == items[i].taskId
    ensures id !in Ids(items) ==> r == items
  {
    match IndexOf(items, id)
    case Some(i) =>
      var out := items[i := Changed(items[i], c)];
      assert forall k | 0 <= k < |out| :: out[k].taskId == items[k].taskId;
      assert Ids(out) == Ids(items);
      out
    case None => items
  }

  /** The records without those of this id, in their order. */
  function WithoutId(items: seq<Record>, id: string): (r: seq<Record>)
    ensures |r| <= |items|
    ensures forall x :: x in r <==> x in items && x.taskId != id
  {
    if items == [] then []
    else (if items[0].taskId != id then [items[0]] else []) + WithoutId(items[1..], id)
  }

  /** Removing records keeps the ids of the others, and keeps them unique. */
  lemma {:induction false} WithoutIdIds(items: seq<Record>, id: string)
    requires UniqueIds(items)
    ensures Ids(WithoutId(items, id)) == Ids(items) - {id}
    ensures UniqueIds(WithoutId(items, id))
  {
    if items != [] {
      UniqueTail(items);
      WithoutIdIds(items[1..], id);
      var rest := WithoutId(items[1..], id);
      if items[0].taskId != id {
        assert WithoutId(items, id) == [items[0]] + rest;
        IdsAppend([items[0]], rest);
        IdsSingle(items[0]);
        UniqueCons(items[0], rest);
      } else {
        assert WithoutId(items, id) == rest;
      }
    }
  }

  /** `list.remove(x)` when `x` may be absent (`ValueError` is ignored). */
  function RemoveFirst(order: seq<string>, id: string): (r: seq<string>)
    ensures id !in order ==> r == order
    ensures id in order ==> |r| == |order| - 1
  {
    if order == [] then []
    else if order[0] == id then order[1..]
    else [order[0]] + RemoveFirst(order[1..], id)
  }

  // ---------------------------------------------------------------------------
  // Events

  /** The record changes `_poll_queue` makes for an event of a task with a row, if any. */
  function EventChanges(e: Event, row: Row): (r: Option<Changes>)
    ensures r.None? <==>
      e.Log? || e.Finished? || e.Progress? || (e.Status? && e.status == []) || (e.Done? && e.path == [])
    ensures r.Some? ==> (r.value.status.Some? <==> !e.Title?)
  {
    match e
    case Status(_, s) =>
      if s == [] then None
      else if s == "cancelled" then Some(Changes(Some(s), None, Some(None), Some(None)))
      else Some(Changes(Some(s), None, None, None))
    case Title(_, t) => Some(Changes(None, Some(t), None, None))
    case Done(_, p) =>
      if p == [] then None else Some(Changes(Some("done"), Some(row.fullTitle), Some(Some(p)), Some(None)))
    case Error(_, _) =>
      var message := Get(e, "message").GetOr("");
      Some(Changes(Some("error"), None, Some(None), Some(if message != [] then Some(message) else None)))
    case _ => None
  }

  /** The row after `_poll_queue` handles an event of its task. */
  function EventRow(e: Event, row: Row): (r: Row)
    ensures r.sourceUrl == row.sourceUrl && r.cancelling == row.cancelling
    ensures EventChanges(e, row).None? ==> r == row
  {
    match e
    case Status(_, s) => if s == [] then row else row.(status := s)
    case Title(_, t) => row.(fullTitle := t)
    case Done(_, p) => if p == [] then row else row.(finalPath := Some(p), status := "done")
    case _ => row
  }

  /**
   * The records and rows after `_poll_queue` handles one event: nothing
   * changes for a task without a row; otherwise the row follows the event
   * and the record takes its changes.
   */
  function PollStep(items: seq<Record>, rows: map<string, Row>, e: Event): (seq<Record>, map<string, Row>) {
    if e.taskId !in rows then (items, rows)
    else
      var row := rows[e.taskId];
      var changed := match EventChanges(e, row)
        case Some(c) => ApplyChanges(items, e.taskId, c)
        case None => items;
      (changed, rows[e.taskId := EventRow(e, row)])
  }

  /** The records and rows after `_poll_queue` handles `events` in turn. */
  function Polled(items: seq<Record>, rows: map<string, Row>, events: seq<Event>): (seq<Record>, map<string, Row>)
    decreases |events|
  {
    if events == [] then (items, rows)
    else
      var next := PollStep(items, rows, events[0]);
      Polled(next.0, next.1, events[1..])
  }

  /** Whether `_poll_queue` changes a record for the event, and so saves the queue. */
  predicate StepSaves(rows: map<string, Row>, e: Event) {
    e.taskId in rows && EventChanges(e, rows[e.taskId]).Some?
  }

  /** Whether some event of the batch changes a record, and so saves the queue. */
  predicate PollSaves(items: seq<Record>, rows: map<string, Row>, events: seq<Event>)
    decreases |events|
  {
    if events == [] then false
    else
      var next := PollStep(items, rows, events[0]);
      StepSaves(rows, events[0]) || PollSaves(next.0, next.1, events[1..])
  }

  /** A batch that saves nothing leaves the records as they were. */
  lemma {:induction false} PolledWithoutSave(items: seq<Record>, rows: map<string, Row>, events: seq<Event>)
    requires !PollSaves(items, rows, events)
    ensures Polled(items, rows, events).0 == items
    decreases |events|
  {
    if events != [] {
      var next := PollStep(items, rows, events[0]);
      assert next.0 == items;
      PolledWithoutSave(next.0, next.1, events[1..]);
    }
  }

  /** The saved queue after polling a batch: the final records when some event changed one. */
  function SavedAfterPoll(items: seq<Record>, rows: map<string, Row>, events: seq<Event>, saved: Option<SavedQueue>, nextId: int)
    : Option<SavedQueue>
  {
    if PollSaves(items, rows, events) then Some(SavedQueue(nextId, Polled(items, rows, events).0)) else saved
  }

  /** Polling one event and then the rest saves what polling the whole batch saves. */
  lemma {:induction false} PollSavesStep(items: seq<Record>, rows: map<string, Row>, events: seq<Event>,
                                         saved: Option<SavedQueue>, nextId: int)
    requires events != []
    ensures var next := PollStep(items, rows, events[0]);
      SavedAfterPoll(items, rows, events, saved, nextId)
      == SavedAfterPoll(next.0, next.1, events[1..],
                        if StepSaves(rows, events[0]) then Some(SavedQueue(nextId, next.0)) else saved, nextId)
  {
    var next := PollStep(items, rows, events[0]);
    if !PollSaves(next.0, next.1, events[1..]) {
      PolledWithoutSave(next.0, next.1, events[1..]);
    }
  }

  /** Polling a batch and then another is polling both at once: the timer's batching does not matter. */
  lemma {:induction false} PolledAppend(items: seq<Record>, rows: map<string, Row>, a: seq<Event>, b: seq<Event>)
    ensures var first := Polled(items, rows, a);
      Polled(items, rows, a + b) == Polled(first.0, first.1, b)
    decreases |a|
  {
    if a == [] {
      assert a + b == b;
    } else {
      var next := PollStep(items, rows, a[0]);
      assert (a + b)[1..] == a[1..] + b;
      PolledAppend(next.0, next.1, a[1..], b);
    }
  }

  /** Polling keeps the set of rows and the ids of the records. */
  lemma {:induction false} PolledKeeps(items: seq<Record>, rows: map<string, Row>, events: seq<Event>)
    ensures Polled(items, rows, events).1.Keys == rows.Keys
    ensures Ids(Polled(items, rows, events).0) == Ids(items)
    decreases |events|
  {
    if events != [] {
      var next := PollStep(items, rows, events[0]);
      assert next.1.Keys == rows.Keys;
      PolledKeeps(next.0, next.1, events[1..]);
    }
  }

  /** Events of tasks without a row leave everything as it was. */
  lemma {:induction false} PolledIgnoresUnknown(items: seq<Record>, rows: map<string, Row>, events: seq<Event>)
    requires forall i | 0 <= i < |events| :: events[i].taskId !in rows
    ensures Polled(items, rows, events) == (items, rows)
  {
    if events != [] {
      PolledIgnoresUnknown(items, rows, events[1..]);
    }
  }

  /**
   * The worker's error events carry their text under `error`, but
   * `_poll_queue` reads `message`: the record gets status `error` and loses
   * its error text and its path.
   */
  lemma WorkerErrorTextLost(taskId: string, text: string, row: Row, r: Record)
    ensures EventChanges(Error(taskId, text), row) == Some(Changes(Some("error"), None, Some(None), Some(None)))
    ensures var c := EventChanges(Error(taskId, text), row).value;
      Changed(r, c).status == "error" && Changed(r, c).error == None && Changed(r, c).path == None
  {
    ErrorEventFields(Error(taskId, text));
  }

  /** A `cancelled` status clears path and error; a `done` event without a path changes nothing. */
  lemma EventChangeCases(e: Event, row: Row, r: Record)
    ensures e == Status(e.taskId, "cancelled") ==>
      var out := Changed(r, EventChanges(e, row).value);
      out.status == "cancelled" && out.path == None && out.error == None
    ensures e.Done? && e.path == [] ==> EventChanges(e, row) == None && EventRow(e, row) == row
    ensures e.Done? && e.path != [] ==>
      var out := Changed(r, EventChanges(e, row).value);
      out.status == "done" && out.path == Some(e.path) && out.error == None && out.title == row.fullTitle
    ensures e.Finished? || e.Log? || e.Progress? ==> EventChanges(e, row) == None && EventRow(e, row) == row
  {
  }

  // ---------------------------------------------------------------------------
  // Starting a task

  /**
   * Why `_start_worker` refuses to start, as the key of the message it
   * shows: a blank URL, unknown duration, unreadable times, a start outside
   * the video, an end not after the start or beyond the end of the video
   * (1 ms of slack), or a root folder that cannot be resolved.
   */
  function Refusal(url: string, duration: Option<real>, start: Utils.TimeInput, end: Utils.TimeInput, root: Option<string>): (r: Option<string>)
    ensures r.None? ==>
      url != [] && duration.Some? && !start.BadTime? && !end.BadTime? && root.Some?
      && 0.0 <= StartValue(start) < duration.value
      && StartValue(start) < EndValue(end, duration.value) <= duration.value + 0.001
  {
    if url == [] then Some("warning_url_body")
    else if duration.None? then Some("warning_metadata_body")
    else if start.BadTime? || end.BadTime? then Some("error_time_format")
    else
      var s := StartValue(start);
      var e := EndValue(end, duration.value);
      if s < 0.0 || s >= duration.value then Some("error_time_start_range")
      else if e <= s || e > duration.value + 0.001 then Some("error_time_end_range")
      else if root.None? then Some("error_root_body")
      else None
  }

  /** `_parse_time_input(start) or 0.0`. */
  function StartValue(start: Utils.TimeInput): real {
    if start.TimeValue? then start.seconds else 0.0
  }

  /** The end time, the whole video when none is given. */
  function EndValue(end: Utils.TimeInput, duration: real): real {
    if end.TimeValue? then end.seconds else duration
  }

  /** The end handed to the worker: `None` when it is within 1 ms of the end of the video. */
  function WorkerEnd(end: real, duration: real): (r: Option<real>)
    ensures r.None? <==> -0.001 <= end - duration <= 0.001
    ensures r.Some? ==> r.value == end
  {
    if (if end - duration < 0.0 then duration - end else end - duration) <= 0.001 then None else Some(end)
  }

  // ---------------------------------------------------------------------------
  // The window

  class DownloaderUI {
    /** `_parse_time_input`. */
    const parseTime: string -> Utils.TimeInput
    /** `queue_state["items"]`, newest first, and `queue_state["next_id"]`. */
    var items: seq<Record>
    var nextId: int
    /** The queue file as `_save_queue_state` last wrote it. */
    var saved: Option<SavedQueue>
    /** `self.tasks`, and `self.task_order`. */
    var rows: map<string, Row>
    var order: seq<string>
    /** `self.workers`. */
    var workers: map<string, WorkerRun>
    var taskCounter: nat

    /**
     * Record ids are unique and non-empty, every record has a row and every
     * row a record, and the counter is beyond every numeric id suffix, so
     * the next `task-N` is a new id.
     */
    predicate Valid()
      reads this
    {
      Consistent(items, rows.Keys, taskCounter)
    }

    /**
     * `__init__`: the queue state is loaded and saved back, the counter is
     * computed, and a row is restored for every record.
     */
    constructor(stored: Option<StoredQueue>, now: string)
      ensures Valid()
      ensures parseTime == Utils.TimeSpec
      ensures (items, nextId) == LoadedState(stored, now)
      ensures saved == Some(SavedQueue(nextId, items))
      ensures workers == map[] && taskCounter >= nextId && taskCounter >= 1
      ensures rows.Keys == Ids(items) && order == TaskIds(items)
      ensures forall r | r in items :: rows[r.taskId] == RestoredRow(r)
    {
      parseTime := Utils.TimeSpec;
      var loaded, next := LoadQueueState(stored, now);
      var counter := ComputeNextTaskCounter(loaded, next);
      items := loaded;
      nextId := next;
      saved := None;
      rows := map[];
      order := [];
      workers := map[];
      taskCounter := counter;
      new;
      LoadedRecordsUnique(if stored.Some? then stored.value.entries else [], now);
      SaveQueueState();
      assert order == [];
      RestoreQueueFromHistory();
    }

    /** `_save_queue_state`: writes the items with `next_id` reset to 1 unless it is positive. */
    method SaveQueueState()
      modifies this`saved
      ensures saved == Some(SavedQueue(if nextId > 0 then nextId else 1, items))
    {
      saved := Some(SavedQueue(if nextId > 0 then nextId else 1, items));
    }

    /** `_restore_queue_from_history`: a row for every record, in the records' order. */
    method RestoreQueueFromHistory()
      requires UniqueIds(items) && forall r | r in items :: r.taskId != []
      requires rows == map[]
      modifies this`rows, this`order
      ensures rows.Keys == Ids(items)
      ensures forall r | r in items :: rows[r.taskId] == RestoredRow(r)
      ensures order == old(order) + TaskIds(items)
    {
      var records := items;
      var i := 0;
      while i < |records|
        invariant 0 <= i <= |records|
        invariant rows.Keys == Ids(records[..i])
        invariant forall j | 0 <= j < i :: rows[records[j].taskId] == RestoredRow(records[j])
        invariant order == old(order) + TaskIds(records[..i])
      {
        RestoreStep(records, i);
        rows := rows[records[i].taskId := RestoredRow(records[i])];
        order := order + [records[i].taskId];
        i := i + 1;
      }
      assert records[..i] == records;
    }

    /**
     * `_update_queue_record`: changes the task's record and saves the
     * queue; nothing at all for a task without a record.
     */
    method UpdateQueueRecord(taskId: string, c: Changes)
      requires Valid()
      modifies this`items, this`saved
      ensures Valid()
      ensures items == ApplyChanges(old(items), taskId, c)
      ensures taskId !in Ids(old(items)) ==> saved == old(saved)
      ensures taskId in Ids(old(items)) ==> saved == Some(SavedQueue(if nextId > 0 then nextId else 1, items))
    {
      if taskId !in Ids(items) {
        return;
      }
      items := ApplyChanges(items, taskId, c);
      SaveQueueState();
    }

    /** `_remove_queue_record`: drops the task's records and saves the queue. */
    method RemoveQueueRecord(taskId: string)
      requires UniqueIds(items)
      modifies this`items, this`saved
      ensures items == WithoutId(old(items), taskId)
      ensures Ids(items) == Ids(old(items)) - {taskId} && UniqueIds(items)
      ensures saved == Some(SavedQueue(if nextId > 0 then nextId else 1, items))
    {
      WithoutIdIds(items, taskId);
      items := WithoutId(items, taskId);
      SaveQueueState();
    }

    /**
     * `_start_worker`: on valid input, a new task `task-N` is recorded at
     * the front as `downloading`, the counter moves on, and its worker
     * starts; on invalid input nothing changes.
     */
    method StartWorker(urlText: string, duration: Option<real>, startText: string, endText: string,
                       root: Option<string>, previewTitle: Option<string>, separateFolder: bool,
                       language: string, now: string)
      returns (result: StartResult)
      requires Valid()
      modifies this`items, this`nextId, this`saved, this`rows, this`order, this`workers, this`taskCounter
      ensures Valid()
      ensures var refusal := Refusal(Text.Strip(urlText), duration, parseTime(startText), parseTime(endText), root);
        refusal.Some? ==> (result == Refused(refusal.value) && items == old(items) && rows == old(rows)
                           && workers == old(workers) && taskCounter == old(taskCounter)
                           && order == old(order) && nextId == old(nextId) && saved == old(saved))
      ensures var refusal := Refusal(Text.Strip(urlText), duration, parseTime(startText), parseTime(endText), root);
        refusal.None? ==> result == Started(TaskIdOf(old(taskCounter)))
      ensures result.Started? ==>
        result.taskId !in Ids(old(items)) && taskCounter == old(taskCounter) + 1 && nextId == taskCounter
        && |items| == |old(items)| + 1 && items[1..] == old(items) && items[0].taskId == result.taskId
        && items[0].status == "downloading" && items[0].path == None && items[0].error == None
        && order == [result.taskId] + old(order)
        && saved == Some(SavedQueue(nextId, items))
      ensures result.Started? ==>
        var url := Text.Strip(urlText);
        var title := if previewTitle.Some? && previewTitle.value != [] then previewTitle.value else url;
        items[0] == Record(result.taskId, title, "downloading", None, Some(url), now, None)
        && rows == old(rows)[result.taskId := Row(title, "downloading", None, NonEmpty(url), false)]
      ensures result.Started? ==>
        var start, end := parseTime(startText), parseTime(endText);
        duration.Some? && root.Some?
        && workers == old(workers)[result.taskId := WorkerRun(Text.Strip(urlText), root.value, previewTitle, separateFolder,
             StartValue(start), WorkerEnd(EndValue(end, duration.value), duration.value), language, false)]
    {
      var url := Text.Strip(urlText);
      var start := parseTime(startText);
      var end := parseTime(endText);
      var refusal := Refusal(url, duration, start, end, root);
      if refusal.Some? {
        return Refused(refusal.value);
      }
      var endSeconds := EndValue(end, duration.value);
      var taskId := TaskIdOf(taskCounter);
      var title := if previewTitle.Some? && previewTitle.value != [] then previewTitle.value else url;
      var record := Record(taskId, title, "downloading", None, Some(url), now, None);
      StartConsistent(items, rows.Keys, taskCounter, record);
      taskCounter := taskCounter + 1;
      nextId := taskCounter;
      rows := rows[taskId := Row(title, "downloading", None, NonEmpty(url), false)];
      order := [taskId] + order;
      AddRecord(record);
      SaveQueueState();
      workers := workers[taskId := WorkerRun(url, root.value, previewTitle, separateFolder,
        StartValue(start), WorkerEnd(endSeconds, duration.value), language, false)];
      result := Started(taskId);
    }

    /** `queue_state["items"].insert(0, record)`, for a record of a new id. */
    method AddRecord(record: Record)
      requires UniqueIds(items) && record.taskId !in Ids(items)
      modifies this`items
      ensures items == [record] + old(items)
      ensures UniqueIds(items) && Ids(items) == Ids(old(items)) + {record.taskId}
    {
      UniqueCons(record, items);
      IdsAppend([record], items);
      IdsSingle(record);
      items := [record] + items;
    }

    /**
     * One event of `_poll_queue`'s loop: ignored without a row for its
     * task; otherwise the row and the record follow it.
     */
    method PollEvent(e: Event)
      requires Valid()
      modifies this`items, this`saved, this`rows
      ensures Valid() && rows.Keys == old(rows).Keys && Ids(items) == Ids(old(items))
      ensures (items, rows) == PollStep(old(items), old(rows), e)
      ensures e.taskId !in old(rows) ==> rows == old(rows) && items == old(items) && saved == old(saved)
      ensures e.taskId in old(rows) ==>
        rows == old(rows)[e.taskId := EventRow(e, old(rows)[e.taskId])]
        && items == match EventChanges(e, old(rows)[e.taskId])
          case Some(c) => ApplyChanges(old(items), e.taskId, c)
          case None => old(items)
      ensures saved == if StepSaves(old(rows), e) then Some(SavedQueue(if nextId > 0 then nextId else 1, items)) else old(saved)
    {
      if e.taskId !in rows {
        return;
      }
      var row := rows[e.taskId];
      var changes := EventChanges(e, row);
      rows := rows[e.taskId := EventRow(e, row)];
      if changes.Some? {
        UpdateQueueRecord(e.taskId, changes.value);
      }
    }

    /** The first event of a batch, stated as what is left of the batch's fold. */
    method PollFirst(events: seq<Event>, ghost c: int)
      requires Valid() && events != [] && c == (if nextId > 0 then nextId else 1)
      modifies this`items, this`saved, this`rows
      ensures Valid() && rows.Keys == old(rows).Keys && Ids(items) == Ids(old(items))
      ensures Polled(items, rows, events[1..]) == Polled(old(items), old(rows), events)
      ensures SavedAfterPoll(items, rows, events[1..], saved, c) == SavedAfterPoll(old(items), old(rows), events, old(saved), c)
    {
      PollSavesStep(items, rows, events, saved, c);
      PollEvent(events[0]);
    }

    /**
     * `_poll_queue`: every pending event in turn, then the workers whose
     * threads have ended (those not in `alive`) are dropped.
     */
    method PollQueue(events: seq<Event>, alive: set<string>)
      requires Valid()
      modifies this`items, this`saved, this`rows, this`workers
      ensures Valid() && rows.Keys == old(rows).Keys && Ids(items) == Ids(old(items))
      ensures (items, rows) == Polled(old(items), old(rows), events)
      ensures saved == if PollSaves(old(items), old(rows), events) then Some(SavedQueue(if nextId > 0 then nextId else 1, items)) else old(saved)
      ensures workers.Keys == old(workers).Keys * alive
      ensures forall id | id in workers :: workers[id] == old(workers)[id]
    {
      ghost var c := if nextId > 0 then nextId else 1;
      var i := 0;
      while i < |events|
        invariant 0 <= i <= |events|
        invariant Valid() && rows.Keys == old(rows).Keys && Ids(items) == Ids(old(items))
        invariant Polled(items, rows, events[i..]) == Polled(old(items), old(rows), events)
        invariant SavedAfterPoll(items, rows, events[i..], saved, c) == SavedAfterPoll(old(items), old(rows), events, old(saved), c)
        invariant workers == old(workers)
      {
        assert events[i..][1..] == events[i + 1..];
        PollFirst(events[i..], c);
        i := i + 1;
      }
      assert events[i..] == [];
      workers := map id | id in workers && id in alive :: workers[id];
    }

    /**
     * `_confirm_clear_history`: refused while any worker is alive, nothing
     * to do without rows, and otherwise, when the user agrees, every row
     * and record goes.
     */
    method ConfirmClearHistory(alive: set<string>, proceed: bool) returns (cleared: bool)
      requires Valid()
      modifies this`items, this`saved, this`rows, this`order
      ensures Valid()
      ensures cleared <==> (forall id | id in old(workers) :: id !in alive) && old(rows) != map[] && proceed
      ensures cleared ==> rows == map[] && order == [] && items == [] && saved == Some(SavedQueue(if nextId > 0 then nextId else 1, []))
      ensures !cleared ==> rows == old(rows) && order == old(order) && items == old(items) && saved == old(saved)
    {
      if exists id | id in workers :: id in alive {
        return false;
      }
      if rows == map[] || !proceed {
        return false;
      }
      rows := map[];
      order := [];
      items := [];
      SaveQueueState();
      cleared := true;
    }

    /** `_cancel_task`: for a task with a worker, cancels it, disables the row's cancel button and records `cancelled`. */
    method CancelTask(taskId: string)
      requires Valid()
      modifies this`workers, this`rows, this`items, this`saved
      ensures Valid()
      ensures taskId !in old(workers) ==> workers == old(workers) && rows == old(rows) && items == old(items)
      ensures taskId in old(workers) ==>
        workers == old(workers)[taskId := old(workers)[taskId].(cancelRequested := true)]
        && rows == (if taskId in old(rows) then old(rows)[taskId := old(rows)[taskId].(cancelling := true)] else old(rows))
        && items == ApplyChanges(old(items), taskId, Changes(Some("cancelled"), None, Some(None), Some(None)))
      ensures saved == if taskId in old(workers) && taskId in Ids(old(items))
        then Some(SavedQueue(if nextId > 0 then nextId else 1, items)) else old(saved)
    {
      if taskId !in workers {
        return;
      }
      MarkCancelling(taskId);
      UpdateQueueRecord(taskId, Changes(Some("cancelled"), None, Some(None), Some(None)));
    }

    /** The worker is asked to stop and its row shows it cancelling; nothing else changes. */
    method MarkCancelling(taskId: string)
      requires Valid() && taskId in workers
      modifies this`workers, this`rows
      ensures Valid() && items == old(items) && saved == old(saved)
      ensures workers == old(workers)[taskId := old(workers)[taskId].(cancelRequested := true)]
      ensures rows == (if taskId in old(rows) then old(rows)[taskId := old(rows)[taskId].(cancelling := true)] else old(rows))
    {
      workers := workers[taskId := workers[taskId].(cancelRequested := true)];
      if taskId in rows {
        assert rows[taskId := rows[taskId].(cancelling := true)].Keys == rows.Keys;
        rows := rows[taskId := rows[taskId].(cancelling := true)];
      }
    }

    /**
     * `_remove_history_entry`: a no-op for an unknown task, while the task
     * is downloading or converting, or while its worker is alive; otherwise
     * the row, its place in the order and its record go.
     */
    method RemoveHistoryEntry(taskId: string, alive: set<string>) returns (removed: bool)
      requires Valid()
      modifies this`rows, this`order, this`items, this`saved
      ensures Valid()
      ensures removed <==> (taskId in old(rows) && old(rows)[taskId].status !in ActiveStatuses
                            && !(taskId in workers && taskId in alive))
      ensures !removed ==> rows == old(rows) && order == old(order) && items == old(items) && saved == old(saved)
      ensures removed ==> (rows == old(rows) - {taskId} && order == RemoveFirst(old(order), taskId)
                           && items == WithoutId(old(items), taskId)
                           && saved == Some(SavedQueue(if nextId > 0 then nextId else 1, items)))
    {
      if taskId !in rows || rows[taskId].status in ActiveStatuses || (taskId in workers && taskId in alive) {
        return false;
      }
      DropTask(taskId);
      removed := true;
    }

    /** The removal itself: the row, its place in the order and its record. */
    method DropTask(taskId: string)
      requires Valid()
      modifies this`rows, this`order, this`items, this`saved
      ensures Valid()
      ensures rows == old(rows) - {taskId} && order == RemoveFirst(old(order), taskId)
      ensures items == WithoutId(old(items), taskId)
      ensures saved == Some(SavedQueue(if nextId > 0 then nextId else 1, items))
    {
      DropConsistent(items, rows.Keys, taskCounter, taskId);
      rows := rows - {taskId};
      order := RemoveFirst(order, taskId);
      RemoveQueueRecord(taskId);
    }
  }

  /**
   * Record ids are unique and non-empty, the rows are those of the
   * records, and the counter is beyond every numeric id suffix.
   */
  predicate Consistent(items: seq<Record>, rowIds: set<string>, counter: nat) {
    UniqueIds(items) && (forall r | r in items :: r.taskId != [])
    && rowIds == Ids(items)
    && (forall r | r in items :: Suffix(r.taskId).Some? ==> Suffix(r.taskId).value < counter)
  }

  /** Recording a new task under the counter's id, and moving the counter on, keeps the state consistent. */
  lemma StartConsistent(items: seq<Record>, rowIds: set<string>, counter: nat, record: Record)
    requires Consistent(items, rowIds, counter) && record.taskId == TaskIdOf(counter)
    ensures record.taskId !in Ids(items)
    ensures Consistent([record] + items, rowIds + {record.taskId}, counter + 1)
  {
    TaskIdFresh(items, counter);
    SuffixOfTaskId(counter);
    UniqueCons(record, items);
    IdsAppend([record], items);
    IdsSingle(record);
    assert record.taskId != [];
  }

  /** Removing a task's row and records keeps the state consistent. */
  lemma DropConsistent(items: seq<Record>, rowIds: set<string>, counter: nat, id: string)
    requires Consistent(items, rowIds, counter)
    ensures Consistent(WithoutId(items, id), rowIds - {id}, counter)
  {
    WithoutIdIds(items, id);
  }

  /** What one more record adds to the ids, in both forms. */
  lemma RestoreStep(records: seq<Record>, i: nat)
    requires i < |records|
    ensures Ids(records[..i + 1]) == Ids(records[..i]) + {records[i].taskId}
    ensures TaskIds(records[..i + 1]) == TaskIds(records[..i]) + [records[i].taskId]
  {
    assert records[..i + 1] == records[..i] + [records[i]];
    IdsAppend(records[..i], [records[i]]);
    IdsSingle(records[i]);
  }

  /** The row `_restore_queue_from_history` builds for a record. */
  function RestoredRow(r: Record): (row: Row)
    ensures row.fullTitle != [] || (r.title == [] && r.taskId == [])
    ensures row.finalPath.Some? ==> row.finalPath == r.path
    ensures !row.cancelling
  {
    Row(if r.title != [] then r.title else r.taskId,
        if r.status != [] then r.status else "done",
        if r.path.Some? && r.path.value != [] then r.path else None,
        if r.url.Some? then NonEmpty(Text.Strip(r.url.value)) else None,
        false)
  }
}
