/** The decision logic of the homework-status bot: the credential check run at
    start-up, the validation of a decoded API response, and the translation of
    one homework record into the notification text sent to the chat. */
module Homework {
  import opened Json
  import opened Py

  // ---------------------------------------------------------------------
  // Credentials
  // ---------------------------------------------------------------------

  /** The three secrets read from the environment; `None` when unset. */
  datatype Credentials = Credentials(
    practicumToken: Option<string>,
    telegramToken: Option<string>,
    telegramChatId: Option<string>)

  /** Names of the three secrets, in the order they are checked. */
  datatype Secret = PracticumToken | TelegramToken | TelegramChatId

  /** The secret whose absence is reported: the first unset one in the order
      practicum token, bot token, chat id; `None` when all three are set. */
  function MissingSecret(c: Credentials): (r: Option<Secret>)
    ensures r == None <==>
      c.practicumToken.Some? && c.telegramToken.Some? && c.telegramChatId.Some?
    ensures r == Some(PracticumToken) <==> c.practicumToken.None?
    ensures r == Some(TelegramToken) <==> c.practicumToken.Some? && c.telegramToken.None?
    ensures r == Some(TelegramChatId) <==>
      c.practicumToken.Some? && c.telegramToken.Some? && c.telegramChatId.None?
  {
    if c.practicumToken.None? then Some(PracticumToken)
    else if c.telegramToken.None? then Some(TelegramToken)
    else if c.telegramChatId.None? then Some(TelegramChatId)
    else None
  }

  /** `check_tokens`: true exactly when every secret is set; an empty string
      counts as set. */
  function CheckTokens(c: Credentials): (ok: bool)
    ensures ok <==> c.practicumToken.Some? && c.telegramToken.Some? && c.telegramChatId.Some?
    ensures ok <==> MissingSecret(c) == None
  {
    if c.practicumToken.None? then false
    else if c.telegramToken.None? then false
    else if c.telegramChatId.None? then false
    else true
  }

  // ---------------------------------------------------------------------
  // Response validation
  // ---------------------------------------------------------------------

  const NoHomeworksMessage: string := "Задания не обнаружены"
  const NotAListMessage: string := "response['homeworks'] не является списком"

  /** The response's `error` field holds an object that itself has an `error`
      key: the API's own error report. */
  ghost predicate ReportsNestedError(fields: map<string, JValue>) {
    "error" in fields && fields["error"].JObj? && "error" in fields["error"].fields
  }

  /** The `error` field is absent, or present but holding nothing that the
      test `'error' in response['error']` finds, so validation carries on. */
  ghost predicate ErrorFieldPasses(fields: map<string, JValue>) {
    "error" !in fields ||
    match fields["error"]
    case JObj(inner) => "error" !in inner
    case JList(items) => JStr("error") !in items
    case JStr(s) => forall i :: !OccursAt("error", s, i)
    case _ => false
  }

  /** A response the validator accepts: a dict that reports no error, has no
      `code` field, and holds a list under `homeworks`. */
  ghost predicate Accepted(response: JValue) {
    && response.JObj?
    && ErrorFieldPasses(response.fields)
    && "code" !in response.fields
    && "homeworks" in response.fields
    && response.fields["homeworks"].JList?
  }

  /** The part of `check_response` after the `error` test: the `code` report,
      then the shape of `homeworks`. */
  function CheckCodeAndHomeworks(response: JValue): (r: Result<seq<JValue>>) {
    var hasCode :- In("code", response);
    if hasCode then
      var message :- Subscript(response, "message");
      Err(BotException(Str(message)))
    else
      var homeworks :- Subscript(response, "homeworks");
      if homeworks.JNull? then Err(BotException(NoHomeworksMessage))
      else if !homeworks.JList? then Err(BotException(NotAListMessage))
      else Ok(homeworks.items)
  }

  /** `check_response`: the checks run in source order and the first that
      fires decides the outcome. */
  function CheckResponse(response: JValue): (r: Result<seq<JValue>>)
    // Python's `in` and `[...]` fail on anything but a dict before any check passes.
    ensures !response.JObj? ==> r == Err(TypeError)
    // A nested error report wins over every later check.
    ensures response.JObj? && ReportsNestedError(response.fields) ==>
      r == Err(BotException(Str(response.fields["error"].fields["error"])))
    // An `error` field whose value the nested test cannot handle.
    ensures (&& response.JObj? && "error" in response.fields
             && !ReportsNestedError(response.fields) && !ErrorFieldPasses(response.fields)) ==>
      r == Err(TypeError)
    // A `code` field reports the `message` field, whatever else is present.
    ensures response.JObj? && ErrorFieldPasses(response.fields) && "code" in response.fields ==>
      r == Err(if "message" in response.fields
                then BotException(Str(response.fields["message"]))
                else KeyError("message"))
    ensures response.JObj? && ErrorFieldPasses(response.fields) && "code" !in response.fields ==>
      && ("homeworks" !in response.fields ==> r == Err(KeyError("homeworks")))
      && ("homeworks" in response.fields && response.fields["homeworks"].JNull? ==>
            r == Err(BotException(NoHomeworksMessage)))
      && ("homeworks" in response.fields && !response.fields["homeworks"].JNull?
            && !response.fields["homeworks"].JList? ==>
            r == Err(BotException(NotAListMessage)))
    // Success exactly for accepted responses, returning `homeworks` unchanged.
    ensures r.Ok? <==> Accepted(response)
    ensures r.Ok? ==> r.value == response.fields["homeworks"].items
  {
    var hasError :- In("error", response);
    if hasError then
      var inner :- Subscript(response, "error");
      var nested :- In("error", inner);
      if nested then
        var report :- Subscript(inner, "error");
        Err(BotException(Str(report)))
      else
        CheckCodeAndHomeworks(response)
    else
      CheckCodeAndHomeworks(response)
  }

  // ---------------------------------------------------------------------
  // Status translation
  // ---------------------------------------------------------------------

  /** `HOMEWORK_STATUSES`: the verdict text for each known review status. */
  const HomeworkStatuses: map<string, string> := map[
    "approved" := "Работа проверена: ревьюеру всё понравилось. Ура!",
    "reviewing" := "Работа взята на проверку ревьюером.",
    "rejected" := "Работа проверена: у ревьюера есть замечания."
  ]

  const UnknownStatusMessage: string := "Обнаружен новый статус, отсутствующий в списке!"
  const NotificationPrefix: string := "Изменился статус проверки работы \""
  /** What separates the homework name from the verdict. */
  const NameEnd: string := "\". "

  /** The notification text for a homework name and a verdict. */
  function Notification(name: string, verdict: string): (text: string) {
    NotificationPrefix + name + NameEnd + verdict
  }

  /** A homework record that translates: a dict with a `homework_name` and a
      `status` that is one of the known statuses. */
  ghost predicate KnownRecord(homework: JValue) {
    && homework.JObj?
    && "homework_name" in homework.fields
    && "status" in homework.fields
    && homework.fields["status"].JStr?
    && homework.fields["status"].s in HomeworkStatuses
  }

  /** `parse_status`: the name is looked up first, then the status, then the
      status is checked against the table. */
  function ParseStatus(homework: JValue): (r: Result<string>)
    ensures !homework.JObj? ==> r == Err(TypeError)
    ensures homework.JObj? && "homework_name" !in homework.fields ==>
      r == Err(KeyError("homework_name"))
    ensures homework.JObj? && "homework_name" in homework.fields && "status" !in homework.fields ==>
      r == Err(KeyError("status"))
    // A list or dict status is unhashable, so the table lookup itself fails.
    ensures (&& homework.JObj? && "homework_name" in homework.fields && "status" in homework.fields
             && (homework.fields["status"].JList? || homework.fields["status"].JObj?)) ==>
      r == Err(TypeError)
    // Any other status outside the table is reported as a new status.
    ensures (&& homework.JObj? && "homework_name" in homework.fields && "status" in homework.fields
             && !homework.fields["status"].JList? && !homework.fields["status"].JObj?
             && !(homework.fields["status"].JStr? && homework.fields["status"].s in HomeworkStatuses)) ==>
      r == Err(BotException(UnknownStatusMessage))
    ensures r.Ok? <==> KnownRecord(homework)
    ensures r.Ok? ==>
      r.value == "Изменился статус проверки работы \"" + Str(homework.fields["homework_name"])
                 + "\". " + HomeworkStatuses[homework.fields["status"].s]
  {
    var name :- Subscript(homework, "homework_name");
    var status :- Subscript(homework, "status");
    var known :- HashIn(status, HomeworkStatuses);
    if !known then Err(BotException(UnknownStatusMessage))
    else Ok(Notification(Str(name), HomeworkStatuses[status.s]))
  }

  // ---------------------------------------------------------------------
  // Reading a notification back
  // ---------------------------------------------------------------------

  /** The known statuses in a fixed order. */
  const StatusKeys: seq<string> := ["approved", "reviewing", "rejected"]

  /** `text` ends with `suffix`. */
  predicate EndsWith(text: string, suffix: string) {
    |suffix| <= |text| && text[|text| - |suffix|..] == suffix
  }

  /** Finds the first status among `keys` whose verdict ends `rest`, and the
      name that precedes it. */
  function ReadVerdict(rest: string, keys: seq<string>): (r: Option<(string, string)>)
    requires forall k :: k in keys ==> k in HomeworkStatuses
    ensures r.Some? ==>
      && r.value.1 in keys
      && rest == r.value.0 + NameEnd + HomeworkStatuses[r.value.1]
  {
    if keys == [] then None
    else
      var ending := NameEnd + HomeworkStatuses[keys[0]];
      if EndsWith(rest, ending) then
        var name := rest[..|rest| - |ending|];
        assert rest == name + ending;
        Some((name, keys[0]))
      else
        ReadVerdict(rest, keys[1..])
  }

  /** Recovers the homework name and the status from a notification text;
      `None` for a text no known status produces. */
  function ReadNotification(text: string): (r: Option<(string, string)>)
    ensures r.Some? ==>
      && r.value.1 in HomeworkStatuses
      && text == Notification(r.value.0, HomeworkStatuses[r.value.1])
  {
    if |NotificationPrefix| <= |text| && text[..|NotificationPrefix|] == NotificationPrefix then
      var rest := text[|NotificationPrefix|..];
      var found := ReadVerdict(rest, StatusKeys);
      if found.Some? then
        assert text == NotificationPrefix + rest;
        found
      else None
    else None
  }

  /** A suffix of `text + ending` at least two characters long ends with the
      same two characters as `ending`. */
  lemma EndingsAgree(text: string, ending: string, suffix: string)
    requires 2 <= |ending| && 2 <= |suffix|
    requires EndsWith(text + ending, suffix)
    ensures suffix[|suffix| - 1] == ending[|ending| - 1]
    ensures suffix[|suffix| - 2] == ending[|ending| - 2]
  {
  }

  /** No verdict, with the separator before it, ends the text of another. */
  lemma VerdictsSuffixFree(name: string, key: string, other: string)
    requires key in HomeworkStatuses && other in HomeworkStatuses && key != other
    ensures !EndsWith(name + NameEnd + HomeworkStatuses[key], NameEnd + HomeworkStatuses[other])
  {
    var ending := NameEnd + HomeworkStatuses[key];
    var suffix := NameEnd + HomeworkStatuses[other];
    assert name + NameEnd + HomeworkStatuses[key] == name + ending;
    if EndsWith(name + ending, suffix) {
      EndingsAgree(name, ending, suffix);
      assert false;
    }
  }

  /** Reading the verdict of a known status finds that status and the name. */
  lemma {:induction false} ReadVerdictFinds(name: string, key: string, keys: seq<string>)
    requires forall k :: k in keys ==> k in HomeworkStatuses
    requires key in keys
    ensures ReadVerdict(name + NameEnd + HomeworkStatuses[key], keys) == Some((name, key))
  {
    var rest := name + NameEnd + HomeworkStatuses[key];
    var ending := NameEnd + HomeworkStatuses[keys[0]];
    if keys[0] == key {
      assert rest == name + ending;
      assert EndsWith(rest, ending);
      assert rest[..|rest| - |ending|] == name;
    } else {
      VerdictsSuffixFree(name, key, keys[0]);
      ReadVerdictFinds(name, key, keys[1..]);
    }
  }

  /** Reading a notification back gives the homework name and the status
      it was made from. */
  lemma NotificationRoundTrip(name: string, key: string)
    requires key in HomeworkStatuses
    ensures ReadNotification(Notification(name, HomeworkStatuses[key])) == Some((name, key))
  {
    var text := Notification(name, HomeworkStatuses[key]);
    var rest := name + NameEnd + HomeworkStatuses[key];
    assert text == NotificationPrefix + rest;
    assert text[|NotificationPrefix|..] == rest;
    assert key in StatusKeys;
    ReadVerdictFinds(name, key, StatusKeys);
  }

  /** Two notifications are equal only when they name the same homework and
      the same status. */
  lemma NotificationInjective(name1: string, key1: string, name2: string, key2: string)
    requires key1 in HomeworkStatuses && key2 in HomeworkStatuses
    requires Notification(name1, HomeworkStatuses[key1]) == Notification(name2, HomeworkStatuses[key2])
    ensures name1 == name2 && key1 == key2
  {
    NotificationRoundTrip(name1, key1);
    NotificationRoundTrip(name2, key2);
  }

  /** Every text `parse_status` returns states the record's name and status. */
  lemma ParseStatusReadable(homework: JValue)
    requires KnownRecord(homework)
    ensures ParseStatus(homework).Ok?
    ensures ReadNotification(ParseStatus(homework).value) ==
      Some((Str(homework.fields["homework_name"]), homework.fields["status"].s))
  {
    NotificationRoundTrip(Str(homework.fields["homework_name"]), homework.fields["status"].s);
  }

  /** Fields other than `error`, `code`, `message` and `homeworks` (the
      API's `current_date`, say) do not change the validation outcome. */
  lemma ResponseIgnoresOtherFields(fields: map<string, JValue>, key: string, value: JValue)
    requires key !in {"error", "code", "message", "homeworks"}
    ensures CheckResponse(JObj(fields[key := value])) == CheckResponse(JObj(fields))
  {
  }

  /** Fields of a record other than `homework_name` and `status` do not
      change its translation. */
  lemma RecordIgnoresOtherFields(fields: map<string, JValue>, key: string, value: JValue)
    requires key !in {"homework_name", "status"}
    ensures ParseStatus(JObj(fields[key := value])) == ParseStatus(JObj(fields))
  {
  }

  // ---------------------------------------------------------------------
  // Validation followed by translation
  // ---------------------------------------------------------------------

  /** A homework record with a string name and a string status. */
  function Record(name: string, status: string): (homework: JValue) {
    JObj(map["homework_name" := JStr(name), "status" := JStr(status)])
  }

  /** A response that lists `records` under `homeworks` and reports nothing. */
  function HomeworksResponse(records: seq<JValue>): (response: JValue) {
    JObj(map["homeworks" := JList(records)])
  }

  /** An accepted response whose `homeworks` list holds one record with a
      name and a known status yields that record, and the record translates
      into the notification naming it. */
  lemma ValidatedRecordTranslates(response: JValue, homework: JValue)
    requires Accepted(response) && response.fields["homeworks"].items == [homework]
    requires KnownRecord(homework)
    ensures CheckResponse(response) == Ok([homework])
    ensures ParseStatus(CheckResponse(response).value[0]) ==
      Ok(Notification(Str(homework.fields["homework_name"]), HomeworkStatuses[homework.fields["status"].s]))
  {
  }

  /** The smallest such response: one record with a string name and a known
      status, and no other field. */
  lemma SingleRecordTranslates(name: string, status: string)
    requires status in HomeworkStatuses
    ensures CheckResponse(HomeworksResponse([Record(name, status)])) == Ok([Record(name, status)])
    ensures ParseStatus(Record(name, status)) == Ok(Notification(name, HomeworkStatuses[status]))
  {
    ValidatedRecordTranslates(HomeworksResponse([Record(name, status)]), Record(name, status));
  }

  /** An empty `homeworks` list is accepted and yields no record. */
  lemma EmptyHomeworksAccepted()
    ensures CheckResponse(HomeworksResponse([])) == Ok([])
  {
  }

  /** An approved homework produces the congratulating notification. */
  lemma ApprovedNotification()
    ensures ParseStatus(Record("hw1", "approved")) ==
      Ok("Изменился статус проверки работы \"hw1\". " + "Работа проверена: ревьюеру всё понравилось. Ура!")
  {
    assert KnownRecord(Record("hw1", "approved"));
    assert NotificationPrefix + "hw1" + NameEnd == "Изменился статус проверки работы \"hw1\". ";
  }

  /** An API error report with a `code` is raised with its `message`. */
  lemma CodeReportsMessage()
    ensures CheckResponse(JObj(map["code" := JStr("not_authenticated"), "message" := JStr("token expired")]))
      == Err(BotException("token expired"))
  {
  }

  /** An unknown status is reported as new, and no text is produced. */
  lemma UnknownStatusRejected()
    ensures ParseStatus(Record("hw1", "archived")) == Err(BotException(UnknownStatusMessage))
  {
  }
}
