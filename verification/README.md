# homework_bot: verified model of the status bot's decision logic

The homework bot polls a homework-review API for the student's homework
statuses. It checks the decoded JSON answer with `check_response`. Its
`parse_status` turns one homework record into a Russian notification
sentence, meant for a Telegram chat. As written, `main` never sends that
sentence: it passes the whole `homeworks` list to `parse_status`, which raises
`TypeError` on a list. Inside the `try` that error is only logged. For an
empty list, the `else` branch calls `parse_status` again outside the `try`,
and the uncaught `TypeError` ends the program. This project models, in Dafny, the pure decisions of
`homework.py`:

- `check_tokens`: whether all three secrets (review-API token, bot token,
  chat id) are set, and which missing one is reported first;
- `check_response`: the short-circuiting validation of a decoded response
  (nested `error.error` report, then `code`/`message` report, then the
  `homeworks` field being absent, `None` or not a list), returning the
  `homeworks` list unchanged;
- `parse_status`: the lookup of `homework_name` and `status`, the check of the
  status against the three-entry `HOMEWORK_STATUSES` table, and the exact
  notification text.

Files:

- `json.dfy` (module `Json`): the decoded JSON value `JValue`.
- `python.dfy` (module `Py`): the Python behaviour the code relies on.
  - The exceptions it can raise: `BotException`, `KeyError`, `TypeError`.
  - A `Result` type carrying either a value or one of those exceptions.
  - The `in` operator with a string on the left: dict key, list element or
    substring, and `TypeError` otherwise.
  - Subscription by a string key: only a dict accepts it.
  - Membership in a dict, which raises `TypeError` for unhashable lists and dicts.
  - `str()` as an f-string applies it.
- `homework.dfy` (module `Homework`): the three functions and their lemmas.
  It also has `ReadNotification`, the inverse of the notification format. It
  shows that a notification names exactly one homework and one status.

A response that is not a dict is rejected with `TypeError`. The source has no
explicit mapping check. But each non-dict value fails at the first `in`
(`None`, numbers, booleans) or at the first string subscript (lists, strings).
The model reproduces those outcomes instead of adding a check.

The exceptions are those the code raises:

- `check_response` and `parse_status` raise `BotException` for their deliberate failures.
- A missing `homeworks`, `message`, `homework_name` or `status` key raises `KeyError`.
- A non-dict value and an unhashable status raise `TypeError`.

## Model

| member | source | states |
|---|---|---|
| Homework.CheckTokens | homework.py:44-55 | true exactly when all three secrets are set (empty strings count as set), and then no secret is reported missing |
| Homework.MissingSecret | homework.py:46-54 | the reported secret is the first unset one in the order practicum token, bot token, chat id; none is reported when all are set |
| Homework.CheckResponse | homework.py:90-110 | non-dict responses raise `TypeError`; a nested `error.error` raises `BotException` with that value before any other check; an `error` value that is `None`, a number or a boolean, or a string or list containing `"error"`, raises `TypeError` (at the nested `in` test or at `response['error']['error']`); otherwise a `code` raises `BotException` with `message` (`KeyError` if `message` is absent) whatever `homeworks` holds; then absent `homeworks` is a `KeyError`, `None` and non-list values are `BotException`s with the source's texts; success exactly when none of these applies, returning the `homeworks` list itself |
| Homework.ParseStatus | homework.py:113-125 | non-dict records raise `TypeError`; missing `homework_name` is a `KeyError` checked before missing `status`; a list or dict status raises `TypeError`; any other status outside the table raises the "new status" `BotException`; success exactly for records with a known string status, giving `Изменился статус проверки работы "<name>". <verdict>` |
| Homework.ReadNotification | homework.py:124-125 | any text it reads back is the notification of the returned name and known status |
| Homework.VerdictsSuffixFree | homework.py:22-26 | no verdict of the table, with the `". ` separator before it, ends a notification built from a different status |
| Homework.NotificationRoundTrip | homework.py:124-125 | reading back the notification of a name and a known status returns that name and status |
| Homework.NotificationInjective | homework.py:124-125 | equal notifications come from the same name and the same status |
| Homework.ParseStatusReadable | homework.py:113-125 | for every record with a name and a known status, the text `parse_status` returns reads back as that record's name and status |
| Homework.ResponseIgnoresOtherFields | homework.py:90-110 | adding a field other than `error`, `code`, `message` and `homeworks` to a response never changes the validation outcome |
| Homework.RecordIgnoresOtherFields | homework.py:113-125 | adding a field other than `homework_name` and `status` to a record never changes its translation |
| Homework.ValidatedRecordTranslates | homework.py:104-125 | any accepted response whose `homeworks` list holds one record with a name and a known status is returned as that one-record list, and the record translates into the notification naming it |
| Homework.SingleRecordTranslates | homework.py:104-125 | the response `{"homeworks": [{"homework_name": n, "status": s}]}` with a known `s` validates to its one record, which translates to the notification for `n` and `s` |
| Homework.EmptyHomeworksAccepted | homework.py:107-110 | an empty `homeworks` list is accepted and yields no records |
| Homework.ApprovedNotification | homework.py:22-26 | record `hw1` with status `approved` gives `Изменился статус проверки работы "hw1". Работа проверена: ревьюеру всё понравилось. Ура!` |
| Homework.CodeReportsMessage | homework.py:99-102 | a response with `code` and message `token expired` raises `BotException("token expired")` |
| Homework.UnknownStatusRejected | homework.py:119-122 | status `archived` raises the "new status" `BotException` and produces no text |
| Py.In | homework.py:93-99 | `key in v` is key membership for a dict, element membership for a list, and occurrence of the substring for a string; it raises `TypeError` for `None`, numbers and booleans |
| Py.IsSubstringSpec | homework.py:94 | the substring test holds exactly when the substring occurs at some index |
| Py.Subscript | homework.py:116-117 | `v[key]` yields the field of a dict that has it, `KeyError(key)` for a dict without it, `TypeError` for any other value |
| Py.Str | homework.py:96-101 | a string is inserted as it is, `None` as `None`, booleans as `True`/`False`, and an integer as decimal digits without leading zeros that read back as its magnitude, with a leading minus sign exactly when negative |
| Py.DigitsValue | homework.py:96-101 | the decimal digits of a natural number read back as that number, and begin with a non-zero digit when the number has more than one digit |
| Py.HashIn | homework.py:119 | a list or dict status raises `TypeError`; any other value gives no exception and is in the table exactly when it is a string key of the table |

## Left out

- `get_api_answer` (homework.py:59-70): the HTTP request and JSON decoding are I/O. The model starts from an already decoded `JValue`.
- `send_message` (homework.py:129-136): a call into the Telegram client.
- `main` (homework.py:139-166): an endless loop of requests, sleeps and `quit()`. It is I/O and timing. As written, it passes the whole list to `parse_status`, runs `parse_status` a second time in its `else` branch, and never moves the cursor past `DATE_ZERO`.
- Module setup (homework.py:9-34): environment loading, log configuration and every log call. The log side effects are dropped. `MissingSecret` says which secret's error line would be logged.
- The constants `DATE_ZERO`, `RETRY_TIME`, `ENDPOINT` and `HEADERS`: only the left-out request and loop use them.
- The commented-out code at homework.py:72-87, 168-182 and 189-212.
- Py.Str: Python's `repr` of a list or dict is not reproduced. Quoting, escapes and key order are all missing, and such values show as `[...]` or `{...}`. So a `BotException` message or notification built from a list or dict value is not the exact Python text. Strings, integers, `None` and booleans are rendered exactly.
- JSON floating-point numbers are not represented. Neither are strings holding a lone surrogate such as `"\ud800"`, which Python's `json` decodes but a Dafny string cannot hold. JSON objects are maps, so duplicate keys and key order are not represented either.
- `KeyError` carries only the missing key, and `TypeError` carries no message. Python's message texts for these are not modelled.
