/**
 * `TaskRow`, the row widget for one download task: which action buttons it
 * shows and enables for the task's status, and which callbacks its buttons
 * invoke. Layout and styling are left out; a button is reduced to whether it
 * is laid out and whether it is enabled.
 */
module Widgets {
  import opened Wrappers
  import opened Text
  import Utils

  /** A button of the row: laid out (`grid`) or removed, enabled or disabled. */
  datatype Button = Button(shown: bool, enabled: bool)

  /** The five action buttons, left to right. */
  datatype Actions = Actions(cancel: Button, open: Button, openLink: Button, retry: Button, remove: Button)

  /** Which of the optional callbacks the row was given. */
  datatype Callbacks = Callbacks(cancel: bool, remove: bool, openUrl: bool, retry: bool)

  /** A callback the row invoked, with its arguments. */
  datatype Call =
    | CancelCall(taskId: string)
    | RemoveCall(taskId: string)
    | OpenFolderCall(path: string)
    | OpenUrlCall(url: string)
    | RetryCall(taskId: string, url: string)

  /** Statuses of a task still in progress. */
  const ActiveStatuses: set<string> := {"downloading", "converting"}

  /** Statuses from which a task can be retried. */
  const RetryableStatuses: set<string> := {"error", "cancelled", "waiting"}

  /** A button that is enabled exactly when it is shown. */
  function Toggle(show: bool): (b: Button)
    ensures b.shown == show && b.enabled == show
  {
    Button(show, show)
  }

  /** The truth value of `source_url`: present and not empty. */
  predicate HasUrl(sourceUrl: Option<string>) {
    sourceUrl.Some? && sourceUrl.value != []
  }

  /** `_update_actions`: the buttons as a function of the row's fields. */
  function ActionsFor(status: string, sourceUrl: Option<string>, finalPath: Option<string>, callbacks: Callbacks): (r: Actions)
    ensures r.cancel.shown <==> status in ActiveStatuses && callbacks.cancel
    ensures r.remove.shown <==> callbacks.remove && status !in ActiveStatuses
    ensures r.open.shown <==> status == "done"
    ensures r.open.enabled <==> status == "done" && finalPath.Some?
    ensures r.openLink.shown <==> HasUrl(sourceUrl) && callbacks.openUrl
    ensures r.retry.shown <==> callbacks.retry && HasUrl(sourceUrl) && status in RetryableStatuses
    ensures r.cancel.enabled == r.cancel.shown && r.openLink.enabled == r.openLink.shown
    ensures r.retry.enabled == r.retry.shown && r.remove.enabled == r.remove.shown
  {
    var showOpen := status == "done";
    Actions(
      Toggle(status in ActiveStatuses && callbacks.cancel),
      Button(showOpen, showOpen && finalPath.Some?),
      Toggle(HasUrl(sourceUrl) && callbacks.openUrl),
      Toggle(callbacks.retry && HasUrl(sourceUrl) && status in RetryableStatuses),
      Toggle(callbacks.remove && status !in ActiveStatuses))
  }

  /** Cancel and remove are never offered together, and neither is retry with cancel. */
  lemma ExclusiveActions(status: string, sourceUrl: Option<string>, finalPath: Option<string>, callbacks: Callbacks)
    ensures var r := ActionsFor(status, sourceUrl, finalPath, callbacks);
      !(r.cancel.shown && r.remove.shown) && !(r.cancel.shown && r.retry.shown)
      && !(r.cancel.shown && r.open.shown)
  {
  }

  /** A running task with a cancel callback offers cancel and nothing that would disturb it. */
  lemma ActiveTaskActions(status: string, sourceUrl: Option<string>, finalPath: Option<string>, callbacks: Callbacks)
    requires status in ActiveStatuses
    ensures var r := ActionsFor(status, sourceUrl, finalPath, callbacks);
      r.cancel.shown == callbacks.cancel && !r.remove.shown && !r.retry.shown && !r.open.shown
  {
  }

  /** `source_url` as the row keeps it: stripped, and `None` when nothing is left. */
  function NormalizedSourceUrl(url: Option<string>): (r: Option<string>)
    ensures r.None? <==> url.None? || Strip(url.value) == []
    ensures r.Some? ==> r.value == Strip(url.value)
    ensures r.Some? ==> !IsSpace(r.value[0]) && !IsSpace(r.value[|r.value| - 1])
  {
    if url.Some? then
      StripIdempotent(url.value);
      var stripped := Strip(url.value);
      if stripped != [] then Some(stripped) else None
    else None
  }

  /** Normalising a normalised URL changes nothing. */
  lemma NormalizedSourceUrlIdempotent(url: Option<string>)
    ensures NormalizedSourceUrl(NormalizedSourceUrl(url)) == NormalizedSourceUrl(url)
  {
    if url.Some? {
      StripIdempotent(url.value);
    }
  }

  /** `_update_status_text`: the translated status inside the translated prefix. */
  function StatusText(translate: (string, map<string, string>) -> string, status: string): string
  {
    translate("status_prefix", map["status" := translate("status_" + status, map[])])
  }

  class TaskRow {
    const taskId: string
    const callbacks: Callbacks
    var fullTitle: string
    var displayTitle: string
    /** The translator: a text key and its arguments to the text shown. */
    var translate: (string, map<string, string>) -> string
    var statusCode: string
    var statusText: string
    var sourceUrl: Option<string>
    var finalPath: Option<string>
    var actions: Actions
    /** The callbacks invoked so far, oldest first. */
    var calls: seq<Call>

    /**
     * The display title is always the shortened full title, the status text
     * follows the status, a kept URL is never empty, and the buttons are the
     * ones `_update_actions` chose, except that `mark_cancelling` may have
     * disabled cancel since.
     */
    ghost predicate Valid()
      reads this
    {
      && displayTitle == Utils.ShortenTitle(fullTitle, Utils.DefaultTitleLimit)
      && statusText == StatusText(translate, statusCode)
      && (sourceUrl.Some? ==> sourceUrl.value != [])
      && var expected := ActionsFor(statusCode, sourceUrl, finalPath, callbacks);
         (actions == expected || actions == expected.(cancel := Button(expected.cancel.shown, false)))
    }

    /** The buttons exactly as `_update_actions` leaves them. */
    ghost predicate Settled()
      reads this
    {
      actions == ActionsFor(statusCode, sourceUrl, finalPath, callbacks)
    }

    constructor(taskId: string, title: string, translator: (string, map<string, string>) -> string, callbacks: Callbacks,
                sourceUrl: Option<string>, status: string, finalPath: Option<string>)
      ensures this.taskId == taskId && this.callbacks == callbacks && this.translate == translator
      ensures fullTitle == title && statusCode == status && this.finalPath == finalPath
      ensures this.sourceUrl == NormalizedSourceUrl(sourceUrl)
      ensures calls == []
      ensures Valid() && Settled()
    {
      this.taskId := taskId;
      this.callbacks := callbacks;
      fullTitle := title;
      displayTitle := Utils.ShortenTitle(title, Utils.DefaultTitleLimit);
      translate := translator;
      statusCode := status;
      this.sourceUrl := NormalizedSourceUrl(sourceUrl);
      this.finalPath := finalPath;
      calls := [];
      statusText := "";
      actions := Actions(Button(false, false), Button(false, false), Button(false, false), Button(false, false), Button(false, false));
      new;
      statusText := StatusText(translate, status);
      UpdateActions();
    }

    /** `_update_actions`. */
    method UpdateActions()
      modifies this
      requires displayTitle == Utils.ShortenTitle(fullTitle, Utils.DefaultTitleLimit)
      requires statusText == StatusText(translate, statusCode)
      requires sourceUrl.Some? ==> sourceUrl.value != []
      ensures actions == ActionsFor(statusCode, sourceUrl, finalPath, callbacks)
      ensures fullTitle == old(fullTitle) && displayTitle == old(displayTitle) && translate == old(translate)
      ensures statusCode == old(statusCode) && statusText == old(statusText)
      ensures sourceUrl == old(sourceUrl) && finalPath == old(finalPath) && calls == old(calls)
      ensures Valid() && Settled()
    {
      actions := ActionsFor(statusCode, sourceUrl, finalPath, callbacks);
    }

    /** `update_status`: the new status, its text, and the buttons for it. */
    method UpdateStatus(status: string)
      modifies this
      requires Valid()
      ensures statusCode == status && statusText == StatusText(translate, status)
      ensures actions == ActionsFor(status, sourceUrl, finalPath, callbacks)
      ensures fullTitle == old(fullTitle) && displayTitle == old(displayTitle) && translate == old(translate)
      ensures sourceUrl == old(sourceUrl) && finalPath == old(finalPath) && calls == old(calls)
      ensures Valid() && Settled()
    {
      statusCode := status;
      statusText := StatusText(translate, statusCode);
      UpdateActions();
    }

    /** `set_final_path`: enables the open button of a finished task. */
    method SetFinalPath(path: string)
      modifies this
      requires Valid()
      ensures finalPath == Some(path)
      ensures actions == ActionsFor(statusCode, sourceUrl, Some(path), callbacks)
      ensures statusCode == "done" ==> actions.open == Button(true, true)
      ensures fullTitle == old(fullTitle) && displayTitle == old(displayTitle) && translate == old(translate)
      ensures statusCode == old(statusCode) && statusText == old(statusText)
      ensures sourceUrl == old(sourceUrl) && calls == old(calls)
      ensures Valid() && Settled()
    {
      finalPath := Some(path);
      UpdateActions();
    }

    /** `set_source_url`: a stripped URL, or none when it is blank or not a string. */
    method SetSourceUrl(url: Option<string>)
      modifies this
      requires Valid()
      ensures sourceUrl == NormalizedSourceUrl(url)
      ensures actions == ActionsFor(statusCode, NormalizedSourceUrl(url), finalPath, callbacks)
      ensures fullTitle == old(fullTitle) && displayTitle == old(displayTitle) && translate == old(translate)
      ensures statusCode == old(statusCode) && statusText == old(statusText)
      ensures finalPath == old(finalPath) && calls == old(calls)
      ensures Valid() && Settled()
    {
      sourceUrl := NormalizedSourceUrl(url);
      UpdateActions();
    }

    /** `set_title`: the full title and its shortened display form. The buttons are untouched. */
    method SetTitle(title: string)
      modifies this
      requires Valid()
      ensures fullTitle == title && displayTitle == Utils.ShortenTitle(title, Utils.DefaultTitleLimit)
      ensures |displayTitle| <= Utils.DefaultTitleLimit
      ensures translate == old(translate) && statusCode == old(statusCode) && statusText == old(statusText)
      ensures sourceUrl == old(sourceUrl) && finalPath == old(finalPath)
      ensures actions == old(actions) && calls == old(calls)
      ensures Valid()
    {
      fullTitle := title;
      displayTitle := Utils.ShortenTitle(title, Utils.DefaultTitleLimit);
      Utils.ShortenTitleFits(title, Utils.DefaultTitleLimit);
    }

    /** `retranslate`: a new translator, so new status text; the buttons are recomputed. */
    method Retranslate(newTranslator: (string, map<string, string>) -> string)
      modifies this
      requires Valid()
      ensures translate == newTranslator && statusText == StatusText(newTranslator, statusCode)
      ensures actions == ActionsFor(statusCode, sourceUrl, finalPath, callbacks)
      ensures fullTitle == old(fullTitle) && displayTitle == old(displayTitle) && statusCode == old(statusCode)
      ensures sourceUrl == old(sourceUrl) && finalPath == old(finalPath) && calls == old(calls)
      ensures Valid() && Settled()
    {
      translate := newTranslator;
      statusText := StatusText(translate, statusCode);
      UpdateActions();
    }

    /** `mark_cancelling`: disables cancel until the next status update. */
    method MarkCancelling()
      modifies this
      requires Valid()
      ensures actions == old(actions).(cancel := Button(old(actions).cancel.shown, false))
      ensures fullTitle == old(fullTitle) && displayTitle == old(displayTitle) && translate == old(translate)
      ensures statusCode == old(statusCode) && statusText == old(statusText)
      ensures sourceUrl == old(sourceUrl) && finalPath == old(finalPath) && calls == old(calls)
      ensures Valid()
    {
      actions := actions.(cancel := Button(actions.cancel.shown, false));
    }

    /** `_cancel_task`: asks to cancel this task, when there is someone to ask. */
    method CancelTask()
      modifies this`calls
      ensures calls == old(calls) + if callbacks.cancel then [CancelCall(taskId)] else []
    {
      if callbacks.cancel {
        calls := calls + [CancelCall(taskId)];
      }
    }

    /** `_remove_from_history`: asks to remove this task, when there is someone to ask. */
    method RemoveFromHistory()
      modifies this`calls
      ensures calls == old(calls) + if callbacks.remove then [RemoveCall(taskId)] else []
    {
      if callbacks.remove {
        calls := calls + [RemoveCall(taskId)];
      }
    }

    /** `_open_folder`: opens the downloaded file's folder, and does nothing before there is a file. */
    method OpenFolder()
      modifies this`calls
      ensures calls == old(calls) + if finalPath.Some? then [OpenFolderCall(finalPath.value)] else []
    {
      if finalPath.Some? {
        calls := calls + [OpenFolderCall(finalPath.value)];
      }
    }

    /** `_open_source_url`: opens the source link, when there is one and someone to open it. */
    method OpenSourceUrl()
      modifies this`calls
      ensures calls == old(calls) + if HasUrl(sourceUrl) && callbacks.openUrl then [OpenUrlCall(sourceUrl.value)] else []
    {
      if HasUrl(sourceUrl) && callbacks.openUrl {
        calls := calls + [OpenUrlCall(sourceUrl.value)];
      }
    }

    /** `_trigger_retry`: asks to download the source again, when there is one and someone to ask. */
    method TriggerRetry()
      modifies this`calls
      ensures calls == old(calls) + if HasUrl(sourceUrl) && callbacks.retry then [RetryCall(taskId, sourceUrl.value)] else []
    {
      if HasUrl(sourceUrl) && callbacks.retry {
        calls := calls + [RetryCall(taskId, sourceUrl.value)];
      }
    }
  }
}
