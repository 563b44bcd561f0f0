# tglogger in Dafny

This project models the core of a Telegram account monitor. The monitor watches a live user session and logs new, edited and deleted messages. Each message goes to a per-chat, per-action text file. The model covers four parts:

- **History** (`history.dfy`): the in-memory message history.
  - It maps each message id to its stored time, text and sender label.
  - It also models the throttled retention sweep, `cleanup_old_messages`. The sweep runs at most once an hour and drops entries older than five hours. Entries whose date does not parse are kept.
  - The sweep appears twice. `Sweep` is a function. `SweepPass` is a method that walks the cache in its iteration order, as the source does. The proof shows that the two agree.
- **Handlers** (`handlers.dfy`): the three event handlers, each a transition of the monitor state.
  - Each handler returns the new state and what it asks the log sink to write. That is nothing, one message record, or one error record.
  - The allow-list filter, the "No text content" and "Private Chat" defaults and the sender label rules are modelled.
  - A `TypeError` while building a label goes to the error sink.
- **Lifecycle** (`lifecycle.dfy`): a router that sends each event to its handler, and a run over a trace of events. Lemmas state what holds across events:
  - the life of one message id: received, edited, then deleted;
  - that filtered chats leave no trace;
  - that an edit which changes nothing is silent;
  - the age bound the throttle keeps.
- **Logger** (`logger.dfy`): `log_message`.
  - It produces the file an entry is appended to, `<chat>_<action>_messages.log` joined onto the log directory, and the entry's text as a list of labelled lines.
  - An unknown action type produces no write.
- **Config** (`config.dfy`): `validate_config`, modelled as a pure function from the environment variables to the list of errors it reports.
  - It also models the parse of `ALLOWED_CHAT_IDS` that the program uses after validation.
  - A lemma proves that validation passes exactly when the environment is well formed, field by field.
  - Another lemma proves that validation of the allow-list passes exactly when a parse of the stripped tokens succeeds. The program's own parse passes each token to `int()` unstripped, and so can raise on an allow-list that validation accepted (see Findings). The model's notion of a well-formed environment uses the stripped parse.

Two support modules model Python built-ins:

- `base.dfy` holds `Option` and `Result`.
- `text.dfy` models `str.strip` (Unicode white space), `split`, `join`, `int()` in base 10 and `str()` of an integer. `int()` skips less white space than `strip()` removes: the information separators U+001C to U+001F count as white space for `strip()` but make `int()` raise. It proves the round trips `split(join(parts)) == parts` and `int(str(n)) == n`, without the digit limit recent Python versions impose.

## Conventions and departures

- **Time.** The wall clock is a parameter `now` in whole seconds.
  - The source stores each time as a `'%Y-%m-%d %H:%M:%S'` string and parses it back during the sweep.
  - Here the stored time is `Option<int>`. `None` stands for a string that does not parse, which the sweep keeps.
  - Rendering a time as a string is a parameter of `Handlers.WriteOf`.
- **Allow-list and log directory.** `ALLOWED_CHAT_IDS` and `LOG_DIR` are module-level values in the source. Here they are parameters (`allow`, `logDir`).
- **Edits replace the stored time.** An edit that changes the text stores the edit time in place of the received time (handlers.py line 160). The stored time is therefore the time of the last change of text, not the time of arrival, and an edited message's five-hour retention restarts at its last edit. An edit that changes nothing leaves the stored time alone (`Lifecycle.NoOpEditKeepsTime`).
- **Legacy entries.** The cache may hold old two-field `(date, text)` entries. The handlers read them with no sender; this is `History.Entry.Legacy`.
- **Deletions without a chat.** A deletion event may carry no chat id. Its log file is then `None_deleted_messages.log`. A non-empty allow-list never admits such an event.

## Model

| member | source | states |
|---|---|---|
| History.Sweep | handlers.py:7-61 | Within an hour of the last sweep that ran, nothing changes. Otherwise the sweep records `now`. It then keeps an entry exactly when its date is missing or unparseable, or is not earlier than five hours before `now`. Kept entries are unchanged and no entry is added. |
| History.SweepPass | handlers.py:25-56 | Collecting expired ids in iteration order and then popping each one leaves exactly the entries `Sweep` keeps. The removed list holds exactly the expired ids, each once. |
| History.SweepThrottled | handlers.py:15-21 | Once a sweep has run, any call within the following hour is a no-op. |
| History.SweepIdempotent | handlers.py:15-23 | A second sweep at the same instant changes nothing. |
| Handlers.SenderLabel | handlers.py:108-116 | `TypeError` is raised exactly when the username is falsy, the first name is `None` and the last name is truthy. A truthy username is the label. Otherwise, with a first name, the label is the first name followed by " " and the last name when the last name is truthy, and the first name alone when it is not. With no sender, or no first name, there is no label. |
| Handlers.HandleReceived | handlers.py:93-127 | A filtered chat gives no change and no output. A raising label gives an error record and no change. Otherwise the sweep runs and the message is stored under its id with the time, the text (default "No text content") and the label. Every other stored entry is one the sweep kept, and a received record is emitted. |
| Handlers.HandleEdited | handlers.py:130-164 | A record is written exactly when the chat is admitted, the id is cached and the text differs. In that case the entry gets the edit time and the new text and keeps its sender, and the key set and the other entries are unchanged. The record is exactly the edited record for that chat id, chat title (default "Private Chat"), message id and edit time, with the kept sender, the old text and the new text. In every other case, state and output are untouched. |
| Handlers.HandleDeleted | handlers.py:64-90 | A record is written exactly when the chat is admitted and the id is cached. In that case the id leaves the cache and every other entry is untouched. The record is exactly the deleted record for the event's chat id, chat title (default "Private Chat"), the deleted id and the deletion time, with the sender and text the entry had. Otherwise nothing changes. |
| Handlers.RecordsAreWritten | handlers.py:125-125 | Every record a handler emits names a known action, so `log_message` always writes it, to `<chat>_<action>_messages.log` under the log directory. |
| Lifecycle.Handle | main.py:14-21 | Each event kind goes to its handler. An event from a chat the allow-list excludes changes nothing and writes nothing. |
| Lifecycle.FilteredRunIsInvisible | handlers.py:98-101 | A whole run of events from excluded chats leaves the state unchanged and writes no record. `Run` and `Records` handle a trace event by event, in delivery order. `Handlers.Admitted` is the allow-list test of handlers.py lines 71, 100 and 139. |
| Lifecycle.EmptyAllowListAdmitsAll | handlers.py:70-73 | An empty allow-list admits every event, including a deletion without a chat id (`Handlers.Admitted`). Any allow-list that admits an event handles it exactly as the empty list does, so the list only filters. |
| Lifecycle.EditsKeepEntry | handlers.py:146-160 | Through any series of edits of a cached id, the entry stays cached, holds the latest text and keeps its original sender label. |
| Lifecycle.DeleteReportsLatestText | handlers.py:80-88 | After a new message and any series of edits, its deletion record carries the latest text and the sender captured on arrival, and the id is gone. |
| Lifecycle.HiThereScenario | handlers.py:93-164 | Message 100 in allowed chat 5 goes "hi", then "hi there", then is deleted. This gives a received record with "hi", an edited record with old "hi" and new "hi there", a deleted record with "hi there", and an empty cache. |
| Lifecycle.RepeatedEditIsSilent | handlers.py:153-154 | Repeating an edit that was just applied, at any time, writes nothing and changes nothing. |
| Lifecycle.NoOpEditKeepsTime | handlers.py:150-154 | An edit to identical text leaves the stored time as it was. |
| Lifecycle.SecondDeleteIsSilent | handlers.py:80-83 | Deleting the same id a second time writes nothing. |
| Lifecycle.HandleKeepsFresh | handlers.py:20-56 | Every handler preserves this: no dated entry is older than the retention window measured from the last sweep, and the last sweep is not after the clock. |
| Lifecycle.RunKeepsFresh | handlers.py:20-56 | The same invariant holds along any run whose clock never goes back. |
| Lifecycle.ReceiveBoundsAge | handlers.py:118-123 | Right after a message is stored, every dated entry is less than six hours old: five hours of retention plus at most one hour of throttle. |
| Logger.ChatIdText | logger.py:59-59 | A chat id renders as its decimal `str()`, and a missing id as "None". Either way the result is non-empty and holds no `_` and no `/`. |
| Logger.ChatIdTextInjective | logger.py:59-59 | Distinct chat ids render distinctly. |
| Logger.PathJoin | logger.py:59-59 | An absolute name is the whole path. A relative name is appended to the directory, with one '/' between them unless the directory is empty or already ends in '/'. |
| Logger.LogFilesDistinct | logger.py:59-82 | Two records go to the same file only when they share chat and action. The file name is `LogFileName`, `<chat>_<action>_messages.log` (logger.py lines 59, 70 and 82). |
| Logger.LogMessage | logger.py:20-90 | There is no write exactly for an unknown action type. Otherwise the path is the per-chat, per-action file under the log directory, and the entry is the rendered fields ending with the dashed separator line. |
| Logger.EntryFrame | logger.py:50-82 | An entry starts with the "<Action> Message in Chat: <title> (ID: <chat>)" line and ends with the separator. `EntryFields` and `EntryBody` are the three f-string templates of logger.py lines 47-81, as labelled fields. |
| Logger.EntryUserLine | logger.py:48-53 | The "From User:" line is present, once, exactly when the username is truthy, and then it carries the username. |
| Logger.EditedEntryLines | logger.py:72-81 | An edited entry has one "Old Message:" line and one "New Message:" line, carrying the two texts ("None" when absent), and no "Message:" line. |
| Logger.PlainEntryLines | logger.py:50-69 | A deleted or received entry has one "Message:" line carrying the text, and no old or new line. |
| Logger.PlainBody | logger.py:50-69 | Below the user line, a deleted or received entry has exactly one "Message:" line carrying the text, no old or new line, and no "From User:" line. |
| Logger.EditedBody | logger.py:72-81 | Below the user line, an edited entry has exactly one "Old Message:" line and one "New Message:" line carrying the two texts, no "Message:" line and no "From User:" line. |
| Logger.Render | logger.py:51-58 | The rendered entry starts with its first field's line and ends with its last field's line. |
| Config.ApiIdErrors | config.py:14-23 | Exactly one error, chosen by the first failing condition: unset or empty; not an integer; not positive. No error otherwise. |
| Config.ApiHashErrors | config.py:26-30 | The hash is reported empty exactly when it is blank. It is reported too short or too long exactly when it is not blank and its unstripped length is not 32. |
| Config.PhoneErrors | config.py:33-44 | Only the first failing check is reported: blank; no leading '+'; shorter than nine characters; non-digits after '+'. No error exactly when the stripped number has the accepted shape. |
| Config.TokenErrorsMeaning | config.py:49-55 | There is at most one error per token. There is no error exactly when every non-blank stripped token is an integer. A lone token that is not blank and not an integer gives exactly the "contains invalid value" error naming the stripped token. |
| Config.TokenErrorsAppend | config.py:49-55 | The errors of two runs of tokens are the first run's errors followed by the second's. With `TokenErrorsMeaning`, this gives one error per non-blank, non-integer token, in token order, each naming its stripped token. |
| Config.ChatIdErrors | config.py:47-55 | An unset or empty allow-list is valid. Otherwise the errors are those of the per-token loop over the comma-separated tokens, and there are none exactly when every non-blank token is an integer once stripped. |
| Config.DcIdErrors | config.py:58-64 | No error exactly when DC_ID (default "2") is an integer from 1 to 5. A non-integer gives exactly the "valid integer" error, and an integer outside 1 to 5 gives exactly the "between 1 and 5" error. |
| Config.DcPortErrors | config.py:67-71 | DC_PORT (default "443") is valid exactly when it is an integer. Its range is not checked. |
| Config.OctetErrors | config.py:83-89 | Every error is the IPv4 one. There is none exactly when every part is an integer from 0 to 255. |
| Config.FirstNonInteger | config.py:84-89 | The index where the loop stops: every part before it is an integer, and the part at it, if any, is not. |
| Config.OctetErrorsCount | config.py:84-89 | The number of errors is the number of out-of-range parts before the first part that is not an integer, plus one if there is such a part. |
| Config.DcIpErrors | config.py:74-89 | The "empty" error is given exactly when the stripped value is empty. A non-empty value that does not split into four parts gives exactly one IPv4 error. With four parts, the errors are those of the per-part loop. No error exactly when the stripped value is four dot-separated integers from 0 to 255. |
| Config.AddressErrors | config.py:75-89 | The same check, on the already stripped value: exactly the "empty" error when empty, exactly one IPv4 error without four parts, and otherwise the per-part loop's errors. |
| Config.DefaultDcIdValid | config.py:58-62 | The default DC_ID passes. |
| Config.DefaultDcPortValid | config.py:67-69 | The default DC_PORT passes. |
| Config.DefaultDcIpValid | config.py:74-87 | The default DC_IP "149.154.167.50" passes. |
| Config.QuadIsIpv4 | config.py:79-87 | Four numbers from 0 to 255, written with dots, pass the IPv4 check. |
| Config.ValidateConfig | config.py:9-97 | The error list is the API_ID, API_HASH, PHONE_NUMBER, ALLOWED_CHAT_IDS, DC_ID, DC_PORT and DC_IP errors, in that order. It is empty exactly when every variable is well formed. |
| Config.CollectMeaning | config.py:114-114 | Collecting the read tokens fails exactly when one of them failed to read as an integer. Otherwise it yields the integers of the integer tokens, in order, with blank tokens skipped. `ParseTokens` is the comprehension of line 114: `ReadToken` reads each token and `Collect` gathers the results. |
| Config.CollectValues | config.py:114-114 | Tokens that all read as integers yield exactly those integers, in order. |
| Config.ParseRendered | config.py:114-114 | Integers written out with `str()` parse back, as tokens, to themselves. |
| Config.RenderedSplits | config.py:114-114 | Splitting a comma-joined list of written-out integers at its commas gives back the written-out integers. |
| Config.ParseAllowedChatIds | config.py:113-114 | An unset or empty variable gives the empty list. |
| Config.ReadStripped | config.py:50-53 | A stripped token fails to read exactly when the check complains about it. Stripping does not change how a token reads when the unstripped read succeeds or the token holds no information separator. |
| Config.TokensAgree | config.py:49-55 | The per-token check finds no error exactly when the parse of the stripped tokens succeeds. |
| Config.UnstrippedAgrees | config.py:114-114 | The program's parse of the unstripped tokens, whenever it succeeds, and whenever no token holds an information separator, gives what the parse of the stripped tokens gives. |
| Config.ChatIdsAgree | config.py:47-55 | Validation of ALLOWED_CHAT_IDS passes exactly when the parse of the stripped tokens (`ParseStrippedChatIds`) raises nothing. When the program's own parse of line 114 succeeds, validation has passed and both parses give the same list. |
| Config.SeparatorSlipsThrough | config.py:114-114 | The allow-list "5" followed by U+001F passes validation, but the program's parse of it raises. |
| Config.ChatIdsRoundTrip | config.py:114-114 | Any list of integers written out with commas parses back to itself, with or without stripping, and passes validation. |
| Config.BlankMeaning | config.py:27-27 | A variable is blank (`not s or not s.strip()`) exactly when it is unset or all white space. |
| Text.StripEmptyIffBlank | config.py:51-51 | A string strips to the empty string exactly when all of it is white space. |
| Text.StripMeaning | config.py:38-38 | The stripped string is a contiguous piece of the input. Everything before and after it is white space, and by `Strip`'s contract it neither starts nor ends with white space. |
| Text.StripIdempotent | config.py:50-50 | Stripping twice is stripping once. |
| Text.Split | config.py:49-49 | There is at least one piece, and no piece contains the separator. |
| Text.JoinSplit | config.py:49-49 | Joining the pieces of a split gives back the string. |
| Text.SplitJoin | config.py:114-114 | Splitting a join of separator-free pieces gives back the pieces. |
| Text.ParseIntSign | config.py:19-21 | A value read with a leading '-' is at most zero; one read without it is at least zero. |
| Text.ParseIntOfStrip | config.py:50-53 | `int()` of a stripped string equals `int()` of the string when the string holds no information separator (U+001C to U+001F), and whenever `int()` of the string succeeds. `ParseInt` models `int()` in base 10, as config.py calls it at lines 19, 53, 60, 69, 85 and 114: a separator anywhere makes it raise, although `strip()` removes one at either end. |
| Text.ParseIntToString | config.py:114-114 | `int(str(n)) == n` for every integer, ignoring the digit limit of recent Python versions (see Left out). |
| Text.IntToString | logger.py:59-59 | The rendering is non-empty, starts with '-' exactly for negative numbers, and holds only digits and '-'. |
| Text.IntToStringInjective | logger.py:59-59 | Distinct integers render distinctly. |

## Findings

| source | as written | input that shows it | evidently intended | confidence | as-written member | corrected member |
|---|---|---|---|---|---|---|
| config.py:114 | The allow-list is parsed with `int(chat_id)` on each unstripped token, while validation (lines 50-53) calls `int()` on the stripped token. | `ALLOWED_CHAT_IDS` set to "5" followed by U+001F: `strip()` removes U+001F, so validation passes, but `int()` does not skip it and raises `ValueError` at import. | Every allow-list that validation accepts parses, as it would if each token were stripped before `int()`. | not executed | Config.SeparatorSlipsThrough | Config.ChatIdsAgree |

The as-written parse is `Config.ParseAllowedChatIds`. The corrected parse is `Config.ParseStrippedChatIds`, and `Config.WellFormed`, and through it `Config.ValidateConfig`, use the corrected parse.

## Left out

- The `asyncio` lock around the cache is not modelled. Each handler's critical section is one atomic step, and the interleaving of concurrent handlers is not modelled.
- `datetime.now`, `strftime` and `strptime` are left out. The clock is a whole-second parameter, and a stored time that does not parse is `None`. Sub-second precision is not modelled: the source compares `datetime` values with microseconds.
- Appending to files, `ensure_log_dir`, the `logging` calls and `log_error`'s own entry format are left out. A handler failure is modelled only as a `Failed` output naming the handler.
- Cache values that are not tuples, and so cannot occur because every handler writes a tuple, are not modelled.
- The ways other than the modelled `TypeError` in which a handler might raise (transport attribute errors and the like) are left out.
- Loading `.env`, reading the process environment, `print` and `sys.exit` in `validate_config` are left out. The function returns the list of errors it would print.
- The conversion of `API_ID`, `DC_ID` and `DC_PORT` to integers after validation, `TG_PASSWORD`, `SESSION_NAME`, `LOG_DIR` and `DC_IP` (config.py lines 105-111 and 116-119) are left out.
- The Telegram transport, client start-up and `set_dc` in main.py are left out.
- config.example.py is not part of this model.
- A deletion event is modelled with one deleted id, the `deleted_id` the handler reads. The transport's list of further ids is not modelled.
- Text.ParseInt: Python 3.11 and later (and security releases of 3.7 to 3.10) refuse to convert between `int` and decimal strings longer than 4300 digits, so `int()` and `str()` raise `ValueError` there. The model has no such limit, so `Text.ParseIntToString` and `Text.ParseIntOfStrip` hold for integers of any size.
- Text.ParseInt: only ASCII digits are accepted, while Python's `int()` also accepts other Unicode decimal digits.
- Text.IsDigit: likewise ASCII only. As a result, `isdigit()` in the phone check is modelled only for ASCII.
- Logger.Render: the contract states the first and last lines of an entry. The lines in between are stated by the lemmas EntryUserLine, EditedEntryLines and PlainEntryLines rather than by Render itself.
