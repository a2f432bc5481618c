/**
 * The translation catalogue and `translate`: a key is looked up in the user's
 * language, then in the default language, then stands for itself, and the text
 * found is formatted with the keyword arguments unless formatting fails.
 */
module Localization {
  import opened Wrappers
  import opened Text

  const SupportedLanguages: seq<string> := ["uk", "en"]
  const DefaultLanguage: string := "uk"

  /** One entry of the catalogue: a key with its Ukrainian and English texts. */
  datatype Entry = Entry(key: string, uk: string, en: string)

  /** The catalogue as a dictionary from key to language to text. */
  type Catalogue = map<string, map<string, string>>

  /** The entries of `TRANSLATIONS`, in their order. */
  const Entries: seq<Entry> := [
    Entry("app_title", "YouTube Downloader", "YouTube Downloader"),
    Entry("url_label", "YouTube URL", "YouTube URL"),
    Entry("search_button", "Знайти відео", "Find video"),
    Entry("root_label", "Коренева тека", "Root folder"),
    Entry("choose_button", "Вибрати", "Browse"),
    Entry("separate_folder", "В окрему папку", "Use separate folder"),
    Entry("download_button", "Скачати", "Download"),
    Entry("preview_group", "Попередній перегляд", "Preview"),
    Entry("preview_title", "Назва: {title}", "Title: {title}"),
    Entry("preview_duration", "Тривалість: {duration}", "Duration: {duration}"),
    Entry("preview_status_loading", "Завантаження даних…", "Fetching data…"),
    Entry("preview_status_ready", "Готово", "Ready"),
    Entry("preview_status_no_duration", "Не вдалося визначити тривалість", "Failed to determine duration"),
    Entry("preview_status_error", "Не вдалося отримати дані за цим посиланням. Перевірте, що це сторінка відео.", "Failed to fetch data for this link. Please ensure it is a video page."),
    Entry("preview_thumbnail_pillow_required", "Щоб бачити обкладинку, встановіть пакет Pillow", "Install Pillow to display thumbnails"),
    Entry("preview_thumbnail_unavailable", "Обкладинка недоступна без пакета Pillow", "Thumbnail unavailable without Pillow"),
    Entry("preview_thumbnail_failed", "Не вдалося завантажити прев’ю", "Failed to load preview"),
    Entry("clip_start_label", "Початок", "Start"),
    Entry("clip_end_label", "Кінець", "End"),
    Entry("queue_group", "Черга завантажень", "Download queue"),
    Entry("clear_history", "Очистити історію", "Clear history"),
    Entry("queue_column_title", "Назва", "Title"),
    Entry("queue_column_status", "Статус", "Status"),
    Entry("queue_column_actions", "Дії", "Actions"),
    Entry("log_group", "Журнал", "Log"),
    Entry("button_open_folder", "Відкрити папку", "Open folder"),
    Entry("button_cancel", "Скасувати", "Cancel"),
    Entry("status_prefix", "Статус: {status}", "Status: {status}"),
    Entry("status_waiting", "очікує", "waiting"),
    Entry("status_downloading", "завантажується", "downloading"),
    Entry("status_converting", "конвертується", "converting"),
    Entry("status_done", "готово", "done"),
    Entry("status_error", "помилка", "error"),
    Entry("status_cancelled", "скасовано", "cancelled"),
    Entry("dialog_choose_folder", "Оберіть теку для завантажень", "Choose download folder"),
    Entry("warning_url_title", "URL", "URL"),
    Entry("warning_url_body", "Вставте посилання на відео.", "Paste a video link."),
    Entry("warning_metadata_title", "Метадані", "Metadata"),
    Entry("warning_metadata_body", "Спочатку натисніть «Знайти відео» та дочекайтесь попереднього перегляду.", "Click \"Find video\" first and wait for the preview."),
    Entry("error_time_title", "Час", "Time"),
    Entry("error_time_format", "Некоректний формат часу. Використовуйте формат гг:хх:сс.", "Invalid time format. Use hh:mm:ss."),
    Entry("error_time_start_range", "Початковий час має бути в межах тривалості відео.", "The start time must be within the video duration."),
    Entry("error_time_end_range", "Кінцевий час має бути більшим за початковий і не перевищувати тривалість відео.", "The end time must be greater than the start time and not exceed the duration."),
    Entry("error_root_title", "Папка", "Folder"),
    Entry("error_root_body", "Неможливо використати цю теку.", "This folder cannot be used."),
    Entry("log_process_started", "Запущено процес", "Process started"),
    Entry("preview_status_idle", "", ""),
    Entry("warning_history_title", "Історія", "History"),
    Entry("warning_history_running", "Спочатку дочекайтеся завершення всіх завантажень.", "Wait for all downloads to finish first."),
    Entry("info_history_empty", "Історія вже порожня.", "History is already empty."),
    Entry("history_title", "Історія", "History"),
    Entry("confirm_clear_history_title", "Очистити історію", "Clear history"),
    Entry("confirm_clear_history_prompt", "Видалити всі записи зі списку? Файли залишаться на диску.", "Remove all entries from the list? Files will remain on disk."),
    Entry("error_open_file_missing", "Файл не знайдено. Переконайтеся, що його не було переміщено або видалено.", "File not found. Ensure it wasn't moved or deleted."),
    Entry("error_open_folder_failed", "Не вдалося відкрити теку: {error}", "Failed to open folder: {error}"),
    Entry("error_open_url_failed", "Не вдалося відкрити посилання: {error}", "Failed to open link: {error}"),
    Entry("error_open_url_failed_unknown", "невідома причина", "unknown reason"),
    Entry("language_label", "Мова", "Language"),
    Entry("theme_label", "Тема", "Theme"),
    Entry("language_uk", "Українська", "Ukrainian"),
    Entry("language_en", "Англійська", "English"),
    Entry("theme_light", "Світла", "Light"),
    Entry("theme_dark", "Темна", "Dark"),
    Entry("log_root", "[CONFIG] ROOT={root}", "[CONFIG] ROOT={root}"),
    Entry("log_workdir", "[INFO] Робоча папка: {folder}", "[INFO] Working directory: {folder}"),
    Entry("log_title", "[INFO] Назва: {title}", "[INFO] Title: {title}"),
    Entry("log_segment", "[INFO] Відрізок: {start} – {end}", "[INFO] Segment: {start} – {end}"),
    Entry("log_download_step", "[1/4] Завантаження...", "[1/4] Downloading..."),
    Entry("log_missing_source", "Не знайдено source.*", "source.* not found"),
    Entry("log_codecs", "[2/4] Відео: {video}   Аудіо: {audio}", "[2/4] Video: {video}   Audio: {audio}"),
    Entry("log_skip_transcode", "[INFO] Уже H.264+AAC. Перейменовую без перекодування.", "[INFO] Already H.264+AAC. Renaming without transcoding."),
    Entry("log_cancelled", "[INFO] Завантаження скасовано користувачем.", "[INFO] Download cancelled by user."),
    Entry("log_target_bitrate", "[3/4] Цільовий відео-бітрейт: {bitrate}", "[3/4] Target video bitrate: {bitrate}"),
    Entry("log_transcoding", "[4/4] Перекодування у MP4...", "[4/4] Transcoding to MP4..."),
    Entry("log_copy_streams", "[INFO] Копіюю доріжки без повторного кодування.", "[INFO] Copying streams without re-encoding."),
    Entry("log_done_path", "[DONE] {path}", "[DONE] {path}"),
    Entry("log_error_message", "[ERROR] {error}", "[ERROR] {error}"),
    Entry("error_empty_url", "Порожній URL.", "Empty URL."),
    Entry("error_end_before_start", "Кінцева позначка має бути більшою за початкову.", "End time must be greater than start time."),
    Entry("error_missing_source", "Не знайдено source.*", "source.* not found"),
    Entry("error_final_file", "Не вдалося створити фінальний файл", "Failed to create the final file"),
    Entry("segment_end", "кінець", "end"),
    Entry("error_folder_missing_file", "Файл не знайдено. Переконайтеся, що його не було переміщено або видалено.", "File not found. Ensure it wasn't moved or deleted."),
    Entry("error_generic_title", "Помилка", "Error")
  ]

  /**
   * The dictionary a display of `entries` builds: a later entry for the same
   * key replaces an earlier one, and every key gets both supported languages.
   */
  function CatalogueOf(entries: seq<Entry>): (m: Catalogue)
    ensures forall key | key in m :: "uk" in m[key] && "en" in m[key]
  {
    if entries == [] then map[]
    else
      var e := entries[|entries| - 1];
      CatalogueOf(entries[..|entries| - 1])[e.key := map["uk" := e.uk, "en" := e.en]]
  }

  /** The keys of the dictionary are exactly the keys of the entries. */
  lemma {:induction false} CatalogueKeys(entries: seq<Entry>)
    ensures forall i | 0 <= i < |entries| :: entries[i].key in CatalogueOf(entries)
    ensures forall key | key in CatalogueOf(entries) :: exists i | 0 <= i < |entries| :: entries[i].key == key
  {
    if entries != [] {
      var init := entries[..|entries| - 1];
      CatalogueKeys(init);
      forall key | key in CatalogueOf(entries)
        ensures exists i | 0 <= i < |entries| :: entries[i].key == key
      {
        if key != entries[|entries| - 1].key {
          var i :| 0 <= i < |init| && init[i].key == key;
          assert entries[i].key == key;
        }
      }
    }
  }

  /** No entry after position `i` has the same key. */
  predicate LastWithKey(entries: seq<Entry>, i: int)
    requires 0 <= i < |entries|
  {
    forall j | i < j < |entries| :: entries[j].key != entries[i].key
  }

  /** The last entry with a key decides its texts. */
  lemma {:induction false} CatalogueLastWins(entries: seq<Entry>, i: nat)
    requires i < |entries| && LastWithKey(entries, i)
    ensures entries[i].key in CatalogueOf(entries)
    ensures CatalogueOf(entries)[entries[i].key] == map["uk" := entries[i].uk, "en" := entries[i].en]
  {
    CatalogueKeys(entries);
    if i < |entries| - 1 {
      var init := entries[..|entries| - 1];
      assert LastWithKey(init, i) by {
        forall j | i < j < |init| ensures init[j].key != init[i].key {
          assert init[j] == entries[j];
        }
      }
      CatalogueLastWins(init, i);
    }
  }

  /** `TRANSLATIONS`. */
  const Translations: Catalogue := CatalogueOf(Entries)

  /** Every entry of the catalogue has a text for each supported language. */
  lemma TranslationsComplete()
    ensures forall key | key in Translations :: forall language | language in SupportedLanguages :: language in Translations[key]
  {
  }

  // ---------------------------------------------------------------------------
  // str.format(**kwargs)

  predicate IsBrace(c: char) {
    c == '{' || c == '}'
  }

  predicate NoBraces(s: string) {
    forall i | 0 <= i < |s| :: !IsBrace(s[i])
  }

  /** `r` with `prefix` in front, or the failure `r` already is. */
  function Prepend(prefix: string, r: Option<string>): Option<string> {
    match r
    case None => None
    case Some(t) => Some(prefix + t)
  }

  /** The number of characters before the first brace of `s`. */
  function BraceFree(s: string): (n: nat)
    ensures n <= |s| && NoBraces(s[..n])
    ensures n < |s| ==> IsBrace(s[n])
  {
    if s == [] || IsBrace(s[0]) then 0
    else
      var n := BraceFree(s[1..]);
      assert s[..n + 1] == [s[0]] + s[1..][..n];
      n + 1
  }

  /**
   * `text.format(**kwargs)`, `None` where Python raises: `{{` and `}}` stand
   * for single braces, `{name}` for the keyword argument `name`; a lone brace,
   * an unclosed field, an empty or numeric (positional) field and a missing
   * argument are errors.
   */
  function Format(text: string, kwargs: map<string, string>): (r: Option<string>)
    ensures NoBraces(text) ==> r == Some(text)
    decreases |text|
  {
    if text == [] then Some([])
    else if text[0] == '}' then
      if |text| >= 2 && text[1] == '}' then Prepend("}", Format(text[2..], kwargs)) else None
    else if text[0] == '{' then
      if |text| >= 2 && text[1] == '{' then Prepend("{", Format(text[2..], kwargs))
      else
        var n := BraceFree(text[1..]);
        if n == |text| - 1 || text[n + 1] == '{' then None
        else
          var name := text[1..n + 1];
          if name == [] || AllDigits(name) || name !in kwargs then None
          else Prepend(kwargs[name], Format(text[n + 2..], kwargs))
    else
      var r := Prepend([text[0]], Format(text[1..], kwargs));
      assert NoBraces(text) ==> NoBraces(text[1..]) && text == [text[0]] + text[1..];
      r
  }

  /** A named field is replaced by its argument, and the rest is formatted on. */
  lemma FormatField(name: string, rest: string, kwargs: map<string, string>)
    requires name != [] && NoBraces(name) && !AllDigits(name) && name in kwargs
    ensures Format("{" + name + "}" + rest, kwargs) == Prepend(kwargs[name], Format(rest, kwargs))
  {
    var text := "{" + name + "}" + rest;
    assert text[1..][..|name|] == name && text[1..][|name|] == '}';
    BraceFreePrefix(text[1..], |name|);
    assert text[1..|name| + 1] == name && text[|name| + 2..] == rest;
  }

  /** A brace-free run followed by a brace is measured exactly. */
  lemma {:induction false} BraceFreePrefix(s: string, n: nat)
    requires n < |s| && NoBraces(s[..n]) && IsBrace(s[n])
    ensures BraceFree(s) == n
  {
    if n > 0 {
      assert s[1..][..n - 1] == s[..n][1..];
      BraceFreePrefix(s[1..], n - 1);
    }
  }

  /** A field whose argument is missing makes the whole text fail. */
  lemma FormatMissingArgument(name: string, rest: string, kwargs: map<string, string>)
    requires name != [] && NoBraces(name) && name !in kwargs
    ensures Format("{" + name + "}" + rest, kwargs) == None
  {
    var text := "{" + name + "}" + rest;
    assert text[1..][..|name|] == name && text[1..][|name|] == '}';
    BraceFreePrefix(text[1..], |name|);
    assert text[1..|name| + 1] == name;
  }

  // ---------------------------------------------------------------------------
  // translate

  /** The text `translate` formats: the language's entry, else the default language's, else the key. */
  function Lookup(catalogue: Catalogue, language: string, key: string): (text: string)
    ensures key in catalogue && language in catalogue[key] ==> text == catalogue[key][language]
    ensures key in catalogue && language !in catalogue[key] && DefaultLanguage in catalogue[key]
      ==> text == catalogue[key][DefaultLanguage]
    ensures (key !in catalogue || (language !in catalogue[key] && DefaultLanguage !in catalogue[key])) ==> text == key
  {
    var mapping := if key in catalogue then catalogue[key] else map[];
    var fallback := if key in catalogue && DefaultLanguage in catalogue[key] then catalogue[key][DefaultLanguage] else key;
    if language in mapping then mapping[language] else fallback
  }

  /** The formatted text, or the text itself when formatting fails. */
  function FormatOrKeep(text: string, kwargs: map<string, string>): (r: string)
    ensures Format(text, kwargs).Some? ==> r == Format(text, kwargs).value
    ensures Format(text, kwargs).None? ==> r == text
  {
    match Format(text, kwargs)
    case Some(t) => t
    case None => text
  }

  /**
   * `translate(language, key, **kwargs)`: a known key in a supported language
   * is that language's entry, an unknown key stands for itself, and a text
   * that cannot be formatted comes back unformatted.
   */
  function Translate(language: string, key: string, kwargs: map<string, string>): (r: string)
    ensures key in Translations && language in SupportedLanguages ==>
      language in Translations[key] && r == FormatOrKeep(Translations[key][language], kwargs)
    ensures key !in Translations ==> r == FormatOrKeep(key, kwargs)
    ensures key !in Translations && NoBraces(key) ==> r == key
    ensures Format(Lookup(Translations, language, key), kwargs).None? ==> r == Lookup(Translations, language, key)
  {
    FormatOrKeep(Lookup(Translations, language, key), kwargs)
  }

  /** Any other language falls back to the default language's entry. */
  lemma TranslateFallback(language: string, key: string, kwargs: map<string, string>)
    requires key in Translations && language !in SupportedLanguages
    ensures DefaultLanguage in Translations[key]
    ensures Translate(language, key, kwargs) == FormatOrKeep(Translations[key][DefaultLanguage], kwargs)
  {
    TranslationsComplete();
    CatalogueOnlySupported(Entries, key);
  }

  /** An unknown key stands for itself, formatted like any text. */
  lemma TranslateUnknown(language: string, key: string, kwargs: map<string, string>)
    requires key !in Translations
    ensures Translate(language, key, kwargs) == FormatOrKeep(key, kwargs)
    ensures NoBraces(key) ==> Translate(language, key, kwargs) == key
  {
  }

  /** The dictionary only holds the supported languages. */
  lemma {:induction false} CatalogueOnlySupported(entries: seq<Entry>, key: string)
    requires key in CatalogueOf(entries)
    ensures forall language | language in CatalogueOf(entries)[key] :: language in SupportedLanguages
  {
    var e := entries[|entries| - 1];
    if key != e.key {
      CatalogueOnlySupported(entries[..|entries| - 1], key);
    }
  }
}
