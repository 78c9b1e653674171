# homework_bot in Dafny

A model of a Telegram bot that watches the review status of a student's
homework through the Yandex Practicum homework-status API. The model covers:

- the check of the three secrets (`check_tokens`);
- how the endpoint's reply is classified (`get_api_answer`);
- the response check, which pops the newest homework off the decoded
  response in place (`check_response`);
- how a homework record becomes a notice (`parse_status`);
- the bot's two exception classes and their texts;
- the polling loop in `main`, with its one-message de-duplication of failure
  reports.

The modules:

- `Wrappers`: `Option`.
- `PyValues`: the Python values a JSON body decodes to, and dictionary
  lookup with last-duplicate-wins. A decoded object is kept as the list of
  bindings in the body, repeats included. Lookup and `repr` read it as the
  dictionary `json` builds from it: each key once, where it first
  appeared, with the value of its last binding. It also has Python's `str` and `repr` of
  those values: decimal integers, and quoted, escaped strings with the quote
  choice `repr` makes. These are proved invertible (`ParseInt`, `Unquote`).
  The proofs need them because a `KeyError` shows its argument through
  `repr`, and every KeyError report embeds that text.
- `Exceptions`: `EmptyValueException` and `EndpointException` with their
  `__str__`, and the sum `Error` of everything a cycle can raise.
- `ApiKeys`: the JSON keys the bot reads, and how they print.
- `Homework`: the operations:
  - `CheckTokens` is a method with check_tokens' `for` loop.
  - `GetApiAnswer`, `Inspect` and `ParseStatus` are functions.
  - `CheckResponse` is a method that mutates a `Response` object.
- `PollLoop`: the cycle as a state-transition function `Step`, and the
  `Poller` class, whose fields are the loop's variables (`timestamp`,
  `last_message`) plus the logs of sent messages and queried cursors.
  - `Poller.Cycle` and `Poller.Run` are proved equal to `Step` and `Steps`.
  - `Launch` is `main`: it checks the tokens, then runs one cycle per reply.

Behaviour of the code that a reader might not expect, which the model keeps:

- One might expect a cursor that only moves forward. In the code it becomes whatever the reply's
  `current_date` holds, and it is assigned before the response is checked,
  so it moves even in a cycle that then fails.
- A response without `homeworks` raises `KeyError`. The message is in
  quotes, because `str(KeyError(m))` is `repr(m)`.
- A success does not reset the last failure report. So the same failure
  after a success is not sent again.
- The tokens are checked with `is None`, so an empty string counts as set.

## Model

| member | source | states |
|---|---|---|
| PyValues.Lookup | homework.py:90 | a key is found exactly when some binding has it |
| PyValues.LastBinding | homework.py:90 | the position of a key's last binding: it has the key, no later binding does, and Lookup reads its value |
| PyValues.LookupLastBinding | homework.py:90 | the value found is that of the key's last binding, so a repeated key reads its last value |
| PyValues.Update | homework.py:99 | rebinding a key keeps the length and every key in its place |
| PyValues.LookupUpdateSame | homework.py:99 | after the pop's rebinding, the key reads the new list |
| PyValues.LookupUpdateOther | homework.py:99 | the rebinding leaves every other key's value unchanged |
| PyValues.NatToString | exceptions.py:31 | the decimal text of a natural is non-empty, all digits, one digit exactly below ten, and starts with 0 only for zero |
| PyValues.ParseNatToString | exceptions.py:31 | reading back the decimal text of a natural gives the number |
| PyValues.ParseIntToString | exceptions.py:31 | reading back the decimal text of an integer, sign included, gives the number |
| PyValues.IntToStringInjective | exceptions.py:31 | different status codes print differently |
| PyValues.EscapedVerbatim | homework.py:92 | text with no quote, backslash or unprintable character is unchanged by repr's escaping |
| PyValues.ReprOfPlain | homework.py:92 | the repr of such a string is the string in single quotes |
| PyValues.UnescapeEscaped | homework.py:146 | repr's escaping loses nothing: unescaping gives back the original text |
| PyValues.UnquoteStrRepr | homework.py:146 | the text of a KeyError's argument can be recovered from the report |
| PyValues.ReprRepeatedKey | homework.py:80 | an object that binds a key twice prints that key once, with its last value |
| PyValues.ReprRepeatedKeyOrder | homework.py:80 | a key bound again after another key keeps its first position and takes its last value |
| PyValues.BuildKept | homework.py:80 | storing an object's bindings one by one, as json.loads fills its dictionary, gives each key once at its first position with its last value |
| PyValues.ReprDecodedObject | homework.py:80 | any decoded object prints as the dictionary built by storing its bindings in order |
| PyValues.StrReprInjective | homework.py:146-148 | different KeyError messages give different reports, so they are not de-duplicated |
| Exceptions.EmptyValueException.Str | exceptions.py:16-17 | `__str__`: the prefix and str(token); its text for check_tokens' list is stated by EmptyValueStrOfNames and CheckTokensMessage |
| Exceptions.EndpointException.Str | exceptions.py:27-34 | `__str__` with `if self.code:`; its properties are stated by EndpointStrWithCode, EndpointStrWithoutCode, EndpointStrDistinguishesCodes, EndpointStrKindsDiffer and EndpointStrFalsyCode |
| Exceptions.ErrorStr | homework.py:146 | str of each exception a cycle can raise (a KeyError through repr); stated by KeyErrorStrQuotes, GetApiAnswerTexts and KeyErrorReport |
| Exceptions.ExceptionConstructors | exceptions.py:13-25 | the constructors store their arguments unchanged, and EndpointException's fields both default to None |
| Exceptions.EndpointStrWithCode | exceptions.py:28-32 | with a truthy code, the text has the endpoint after "Эндпоинт " and ends with the code in decimal |
| Exceptions.EndpointStrWithoutCode | exceptions.py:33-34 | without a code, the text is the generic one, with the endpoint in it |
| Exceptions.EndpointStrDistinguishesCodes | exceptions.py:27-32 | for one endpoint, two coded exceptions print alike if and only if their codes are equal |
| Exceptions.EndpointStrKindsDiffer | exceptions.py:27-34 | a coded text never equals an uncoded one |
| Exceptions.EndpointStrFalsyCode | exceptions.py:28 | code 0 is falsy: the text is the same as with no code |
| Exceptions.StrList | exceptions.py:17 | the Python list that check_tokens passes holds the names as strings, in order |
| Exceptions.ReprItemsOfNames | exceptions.py:17 | a list of plain names prints as the quoted names separated by ", " |
| Exceptions.EmptyValueStrOfNames | exceptions.py:16-17 | the exception's text is the fixed prefix and the list literal of the names |
| Exceptions.KeyErrorStrQuotes | homework.py:91-92 | str of a KeyError is its message in quotes: the message can be read back, and the text differs from it |
| ApiKeys.HomeworksKeyRepr | homework.py:92 | the missing key prints as 'homeworks' |
| ApiKeys.StatusKeyRepr | homework.py:109-112 | the missing key prints as 'status' |
| ApiKeys.NameKeyRepr | homework.py:110-112 | the missing key prints as 'homework_name' |
| Homework.MissingAppend | homework.py:37-43 | one more loop iteration appends the entry's name exactly when its value is None |
| Homework.MissingOfTokens | homework.py:36-43 | the loop over the three entries collects exactly the reference list of unset names |
| Homework.MissingTokensExactly | homework.py:36-44 | each name is listed if and only if its secret is unset; the list is empty exactly when all three are set |
| Homework.CheckTokens | homework.py:30-49 | returns normally if and only if all three secrets are set; otherwise raises with the missing names in check order |
| Homework.CheckTokensMessage | homework.py:44-49 | the raised exception's text lists the missing names as a Python list literal |
| Homework.GetApiAnswer | homework.py:66-80 | the decoded body is returned exactly for a 200 JSON reply; a transport failure raises without a code, another status raises with its code, and a non-JSON body raises the decoding error |
| Homework.GetApiAnswerTexts | homework.py:75-79 | a transport failure or code 0 gives the generic text; other codes give one text per code, never the generic one |
| Homework.Subscript | homework.py:90 | indexing succeeds exactly on a dictionary having the key; a dictionary without it raises KeyError(key), anything else TypeError |
| Homework.Inspect | homework.py:89-99 | succeeds if and only if "homeworks" holds a list; a failure leaves the response alone; an empty list gives None; a non-list raises TypeError, and so does a response that is not a dictionary |
| Homework.InspectMissingKey | homework.py:89-92 | a missing "homeworks" raises KeyError with 'homeworks' quoted in its message |
| Homework.InspectPops | homework.py:98-99 | a non-empty list yields its last entry, the rest stays in the response in order, and no other key changes |
| Homework.CheckResponse | homework.py:83-99 | in place: returns what Inspect returns, and leaves the response as Inspect's pop does |
| Homework.VerdictOf | homework.py:114-118 | a verdict is found exactly for the three known statuses; other hashable statuses raise KeyError(status) |
| Homework.ParseStatus | homework.py:102-120 | succeeds if and only if the record has both keys and a known status; the notice holds str(name) and that status's verdict |
| Homework.ParseStatusMissingKey | homework.py:108-113 | a missing field is named in quotes; "status" is checked first |
| Homework.ParseStatusUnknown | homework.py:114-118 | an unknown status string is reported with its repr |
| Homework.MissingField | homework.py:111-113 | a missing field's KeyError re-raised with the key's repr in the message; stated by ParseStatusMissingKey |
| Homework.Notice | homework.py:120 | the notice sentence; stated by NoticeDeterminesStatus and NoticeShowsDecodedName |
| Homework.NoticeShowsDecodedName | homework.py:110-120 | a name that is an object repeating a key appears in the notice once, with the key's last value |
| Homework.NoticeDeterminesStatus | homework.py:120 | the notice carries the name in quotes, and for one homework two statuses give the same notice if and only if they are equal |
| PollLoop.TryCycle | homework.py:135-144 | the try block of a cycle: the cursor it assigns and how it ends; stated by CursorFollowsCurrentDate and NoticeSent, and carried out by Poller.TryBlock |
| PollLoop.Report | homework.py:146 | the failure report text; stated by KeyErrorReport, StrReprInjective and FailureDeduplicated |
| PollLoop.Advance | homework.py:145-150 | the query log, the cursor and the de-duplicated send after a try block; stated by StepQueriesCursor, FailureDeduplicated and SuccessKeepsLastReport |
| PollLoop.Step | homework.py:134-150 | one cycle; Poller.Cycle is proved equal to it, and FailureDeduplicated, NoticeSent and DistinctFailuresBothSent state its effect |
| PollLoop.Steps | homework.py:134-151 | cycles over a sequence of replies; Poller.Run is proved equal to it, and StepsKeepLastReportSent and RepeatedFailureReportedOnce state its effect |
| PollLoop.Poller.constructor | homework.py:132-133 | the loop starts with the current time as cursor and no last message |
| PollLoop.Poller.SendMessage | homework.py:52-63 | appends the message to the sent log and changes nothing else; a delivery failure is never raised |
| PollLoop.Poller.TryBlock | homework.py:135-144 | the try block moves the cursor and sends a notice exactly as TryCycle says, and returns the exception it raised |
| PollLoop.Poller.Cycle | homework.py:134-150 | one pass of the loop changes the state exactly as Step does |
| PollLoop.Poller.Run | homework.py:134-151 | a run over a sequence of replies ends in the state Steps gives |
| PollLoop.Launch | homework.py:123-151 | the loop runs if and only if all secrets are set, from the current time, one cycle per reply |
| PollLoop.StepQueriesCursor | homework.py:136 | every cycle queries with the cursor it starts with |
| PollLoop.CursorFollowsCurrentDate | homework.py:136-140 | the cursor becomes the reply's current_date even if the cycle fails later; without a reply or a current_date it stays, and the cycle fails |
| PollLoop.NoticeSent | homework.py:141-144 | a recognised newest record sends exactly its notice; an empty list or a null record sends nothing; any other newest record fails the cycle with parse_status's error |
| PollLoop.FailureDeduplicated | homework.py:145-150 | a failure report is sent and remembered if and only if it differs from the last one |
| PollLoop.SuccessKeepsLastReport | homework.py:133-150 | a cycle that does not fail leaves the last report as it was |
| PollLoop.RepeatedFailureSentOnce | homework.py:145-150 | the same failing reply twice in a row: the second cycle sends nothing, and the pair sends at most one report |
| PollLoop.RepeatedFailureReportedOnce | homework.py:134-150 | the same failure over any number of cycles is sent at most once, and only in the first of them |
| PollLoop.DistinctFailuresBothSent | homework.py:148-150 | of two different failures in a row the second is always sent; both are sent when the first differs from the last report |
| PollLoop.StepsKeepLastReportSent | homework.py:134-150 | over any run, the last report was sent, the sent log only grows, and each reply costs one query |
| PollLoop.NewestRecordNotified | homework.py:136-144 | a reply whose newest record has a known status sends that one notice, and the next query uses the reply's current_date |
| PollLoop.KeyErrorReport | homework.py:145-146 | for a message with no double quote, backslash or unprintable character, the report carries it in single quotes, or in double quotes when it holds a single quote |

## Left out

- Process environment and `.env` loading: the three secrets are parameters (`None` for unset).
- The HTTP request: the reply is an input (`HttpOutcome`). That covers a
  transport failure, or a status code with a body that did or did not decode
  as JSON. The `Authorization` header and the `from_date` parameter are not
  modelled, beyond logging the cursor each cycle queries with.
- The Telegram client: a send appends to the `sent` log. `send_message`
  catches the client's `ApiException`, so a failed delivery changes nothing
  else. Other exceptions from the client are not modelled.
- Logging, including the logger setup in `main`: none of it affects behaviour.
- `time.time()` and `time.sleep(RETRY_PERIOD)`: the start time is a
  parameter, and the 600-second pause between cycles is not modelled.
- The infinite `while True`: `Run` and `Launch` cover any finite prefix of
  the loop, one cycle per reply.
- `app_logger.py` and `testing.py` are not part of this model.
- JSON numbers with a fraction or an exponent are not part of the value model.
- PyValues.Repr: escapes U+0000 to U+001F, U+007F to U+00A0, and the
  soft hyphen U+00AD, which are the non-printable code points below U+0100.
  Python also escapes non-printable code points above that range, such as
  U+2028; this model shows them unescaped.
- Homework.Subscript / Homework.VerdictOf: the TypeError texts follow one
  interpreter version's wording. Only their kind matters to the proofs.
- Homework.CheckResponse: models the in-place `pop` as a rebinding of the
  response's "homeworks" entry. Aliasing between the list and other
  references to it is not modelled, and no other code holds one.
- Exceptions not raised by the modelled code (memory errors, interrupts) are
  not part of `Error`.
