# Filter building for the Gmail MCP server, in Dafny

This project models the filter-building core of the Gmail MCP server
(`mcp_server`). It has three parts.

- **The reasoning engine.** A completion service answers a question about the
  user's archived messages with a JSON object. The engine validates the object's
  `date` entry, a mapping from the operators `$lte $gte $eq $ne $gt $lt` to
  free-text dates, and rewrites every date as a Unix timestamp. It then
  translates the result, together with the UI filter, into one DynamoDB filter
  condition. An explicit UI date range replaces the inferred one.
- **The DynamoDB client.** It builds the OR-chain of sender equalities, ANDs on
  the optional time bounds, and pages through the user's partition, newest
  first and at most 100 items read per request, for as long as the table returns
  a cursor. It also shapes the user's refresh tokens and looks up single
  messages.
- **The UI filter record.** Its start and end timestamps combine the calendar
  date with a time of day that defaults to 00:00 and 23:59.

Files:

- `values.dfy`: JSON values, Python truthiness, `Option`/`Result` and the
  exceptions the core raises.
- `conditions.dfy`: boto3's `Attr` conditions as an expression tree, with
  `Eval` saying when a stored item satisfies one.
- `models.dfy`: `QueryFilter`, strptime's reading of `%H:%M`, and civil-date
  arithmetic at a fixed UTC offset.
- `reasoning_engine.dfy`: validation, timestamp conversion (a loop), and the
  two translators.
- `dynamodb.dfy`: the filter expression (a loop), the pagination loop over a
  table given as a function from request to page, refresh tokens, and
  single-item lookup.

Three behaviours of the code are worth stating up front:

- The page loop of `get_messages` has no item cap. It runs until the table
  stops returning a cursor.
- The recipients and the sender address of the UI filter add no predicate to
  the DynamoDB condition.
- A `date` value that is not a mapping makes the answer's validation raise.
  This is logged under Findings below. `ValidateResponseAsWritten` models the
  validation as written. `get_additional_filters` is modelled
  (`AdditionalFilters`, `GetAdditionalFilters`) with the corrected
  `ValidateResponse`, which rejects such an answer.

The UI filter record `QueryFilter` (`mcp_server/models.py:5-12`) is the
datatype `Models.QueryFilter`. It has one field per attribute: the optional
list of inboxes, the recipients, the sender address, and the start and end
dates with their optional times of day.

## Model

| member | source | states |
|---|---|---|
| Models.ParseClock | mcp_server/models.py:18 | a time string accepted by strptime's `%H:%M` reads as an hour below 24 and a minute below 60 |
| Models.ParseClockIff | mcp_server/models.py:18 | `%H:%M` accepts a string as a time of day exactly when the string is optional white space, then one or two digits, a colon and one or two digits, with nothing after them, and the digits spell that hour (below 24) and minute (below 60) |
| Models.ParseClockSound | mcp_server/models.py:18 | every accepted string has that shape and spells the time read |
| Models.ParseClockComplete | mcp_server/models.py:18 | every string of that shape is accepted as the time it spells |
| Models.Pad2 | mcp_server/reasoning_engine.py:41 | a number below 100 written as two zero-padded digits, as `%d`, `%m`, `%H` and `%M` write it (and as the default times "00:00" and "23:59" of `QueryFilter` are spelled), reads back as that number |
| Models.ParseFormattedClock | mcp_server/models.py:18 | writing a time as "HH:MM" and reading it back with `%H:%M` gives the same time |
| Models.ParseRejectsTrailingData | mcp_server/models.py:18 | anything after "HH:MM" is unconverted data and is rejected |
| Models.ParseRejectsOutOfRange | mcp_server/models.py:18 | an hour of 24 or more, or a minute of 60 or more, is rejected |
| Models.StartDateTimestamp | mcp_server/models.py:15-19 | the start stamp exists exactly when the year has four digits and the start time is absent, empty or accepted by `%H:%M`; otherwise ValueError; the stamp lies within the local calendar day of the start date |
| Models.EndDateTimestamp | mcp_server/models.py:21-25 | the same for the end date and the end time |
| Models.LocalTimestamp | mcp_server/models.py:16-19 | the stamp exists exactly when the year has four digits and the time parses; otherwise the result is ValueError; a stamp lies within the local calendar day of the date |
| Models.LocalTimestampValue | mcp_server/models.py:18-19 | a time of the accepted shape spelling hour h and minute m stamps local midnight of the date plus 3600·h + 60·m seconds |
| Models.DefaultTimesParse | mcp_server/models.py:17-23 | the defaults "00:00" and "23:59" read as 0:00 and 23:59 |
| Models.StartTimeDefault | mcp_server/models.py:15-19 | the start stamp uses the start time when one is given (non-empty) and local midnight otherwise |
| Models.EndTimeDefault | mcp_server/models.py:21-25 | the end stamp uses the end time when one is given (non-empty) and 23:59 otherwise |
| Models.DefaultWindowOfOneDay | mcp_server/models.py:15-25 | for one calendar date and no times, the end stamp is 86340 seconds after the start stamp |
| Models.NextDayStartsAfterEnd | mcp_server/models.py:15-25 | with default times, the start of the next day of the month is 60 seconds after the end of the day before |
| Models.OnlyCalendarDayUsed | mcp_server/models.py:16-22 | two dates with the same day, month and year give the same stamp, whatever their time of day |
| Models.LaterTimeLaterStamp | mcp_server/models.py:18-19 | on a fixed date, a later time of day gives a strictly larger stamp |
| Models.MalformedTimeIsError | mcp_server/models.py:15-25 | a given start or end time that strptime rejects makes the stamp raise ValueError |
| Models.UnixEpoch | mcp_server/models.py:19 | day 0 of the civil-day count is 1970-01-01 |
| Models.MonthRollover | mcp_server/models.py:19 | the first day of a month is the day after the last day of the month before, in every year, February of leap years included |
| Models.MarchFollowsFebruary | mcp_server/models.py:19 | 1 March is the day after the last day of February, 29 February in leap years |
| Models.MarchToMarch | mcp_server/models.py:19 | the year that runs from 1 March has 366 days exactly when the next calendar year is a leap year |
| Models.YearRollover | mcp_server/models.py:19 | 1 January is the day after 31 December |
| ReasoningEngine.DecimalString | mcp_server/reasoning_engine.py:41 | a year written in decimal is a non-empty string of digits that reads back as the year |
| ReasoningEngine.DateText | mcp_server/reasoning_engine.py:41 | the date written as `%d/%m/%Y` reads back as now's day, month and year |
| ReasoningEngine.WithDate | mcp_server/reasoning_engine.py:41 | the prompt is the question, then " Current date: ", then the date, a space and the five-character time, each at its own place |
| ReasoningEngine.PromptText | mcp_server/reasoning_engine.py:41 | the prompt starts with the question, then " Current date: ", then now's date, a space and now's time |
| ReasoningEngine.PromptCarriesNow | mcp_server/reasoning_engine.py:41 | the date in the prompt reads back as now's day, month and year, and the time reads back through `%H:%M` as now's hour and minute |
| ReasoningEngine.ParseResponse | mcp_server/reasoning_engine.py:48-53 | a decoded answer is returned as decoded; an answer that does not decode becomes the empty object |
| ReasoningEngine.ValidateResponseAsWritten | mcp_server/reasoning_engine.py:55-59 | the validation as written raises exactly when the answer is not an object or its `date` is not an object (AttributeError for a list or a string, TypeError otherwise); when it returns, it accepts exactly the answers with a `date` whose keys are all operators |
| ReasoningEngine.ValidateResponse | mcp_server/reasoning_engine.py:55-59 | the corrected validation agrees with the validation as written wherever that returns, and rejects every answer on which it raises |
| ReasoningEngine.ValidateAsWrittenRaisesOnTextDate | mcp_server/reasoning_engine.py:55-59 | for `{"date": "last week"}` the validation as written raises AttributeError, while the corrected validation rejects the answer |
| ReasoningEngine.EmptyDateIsValid | mcp_server/reasoning_engine.py:55-59 | an empty `date` mapping is usable; an answer without `date` is not |
| ReasoningEngine.Stamped | mcp_server/reasoning_engine.py:61-67 | conversion succeeds exactly when there is no `date` entry or every value under it can be stamped; a `date` that is not a mapping raises AttributeError, an unstampable value a conversion error; on success every key is kept, each date value becomes its integer timestamp and the other entries are left alone |
| ReasoningEngine.ConvertToTimestamp | mcp_server/reasoning_engine.py:61-67 | the key-by-key overwriting loop computes exactly `Stamped` |
| ReasoningEngine.AdditionalFilters | mcp_server/reasoning_engine.py:39-53 | an unusable or undecodable answer gives the empty filter; a decoded usable answer gives that answer with its dates stamped (`Stamped`), a filter whose `date` holds only operators with integer values; the only error is a date that cannot be converted |
| ReasoningEngine.GetAdditionalFilters | mcp_server/reasoning_engine.py:39-46 | asking, parsing, validating and converting computes exactly `AdditionalFilters` of the completion of the prompt |
| ReasoningEngine.NonMappingDateYieldsEmptyFilter | mcp_server/reasoning_engine.py:44-46 | an answer that is not an object, or whose `date` is not an object, gives the empty filter |
| ReasoningEngine.RelativeDateCondition | mcp_server/reasoning_engine.py:79-85 | the reasoning range is `Between($gte, $lte)` on `created_at_timestamp`, with `$lte` defaulting to now; it exists only when both bounds are truthy; a `date` that is not a mapping raises AttributeError |
| ReasoningEngine.NotAll | mcp_server/reasoning_engine.py:103 | the listed inboxes other than "ALL" |
| ReasoningEngine.InboxCondition | mcp_server/reasoning_engine.py:103-107 | the inbox condition exists exactly when a listed inbox is not "ALL" (that is, GMAIL is listed) and contains the whole list as given |
| ReasoningEngine.UiDateCondition | mcp_server/reasoning_engine.py:109-125 | the UI date condition fails, with ValueError, exactly when a given date cannot be stamped; it is absent exactly when neither date is given; otherwise it keeps exactly the items whose timestamp is at least the start stamp (when a start is given) and at most the end stamp (when an end is given) |
| ReasoningEngine.JoinResult | mcp_server/reasoning_engine.py:90-94 | ANDing a condition that may fail onto an optional one fails exactly when that condition fails, and otherwise keeps exactly the items that satisfy both |
| ReasoningEngine.ConvertUiFilterToDynamoDbFilter | mcp_server/reasoning_engine.py:98-127 | without date filtering the result is the inbox condition alone; with it, the result is the inbox condition followed by the UI date condition, keeping exactly the items that satisfy both, and it fails exactly when a date stamp fails |
| ReasoningEngine.RecipientsAndSenderIgnored | mcp_server/reasoning_engine.py:100-127 | recipients and the sender address never change the UI condition |
| ReasoningEngine.ConvertPineconeFilterToDynamoDbFilter | mcp_server/reasoning_engine.py:69-96 | no condition without either filter; with a UI date the result is the UI conversion alone; otherwise the result is the reasoning range followed by the UI condition, their conjunction in meaning; it fails exactly when one of the two parts fails |
| ReasoningEngine.NoFiltersNoCondition | mcp_server/reasoning_engine.py:72-96 | an absent or empty reasoning filter with a UI filter that restricts nothing gives no condition |
| ReasoningEngine.UiDateOverridesReasoning | mcp_server/reasoning_engine.py:76-85 | under a UI start or end date, the result does not depend on the reasoning filter or on the clock |
| ReasoningEngine.UiDateExcludesReasoningRange | mcp_server/reasoning_engine.py:76-127 | under a UI date, every date condition in the result is built from the UI's own start and end stamps: a range only when both dates are given, one bound otherwise |
| ReasoningEngine.AdditionalFiltersTranslate | mcp_server/reasoning_engine.py:79-85 | a filter produced by `get_additional_filters` never makes the translation raise, and its range has integer bounds |
| Conditions.Join | mcp_server/reasoning_engine.py:90-94 | ANDing onto an optional condition keeps exactly the items that satisfy both |
| DynamoDb.SenderChain | mcp_server/dynamodb.py:20-23 | an item satisfies the sender chain exactly when its sender is one of the listed senders |
| DynamoDb.SenderChainShape | mcp_server/dynamodb.py:20-23 | the sender chain is a left-nested OR of `message_from == s`, one per sender, in list order |
| DynamoDb.MessagesFilter | mcp_server/dynamodb.py:20-36 | the filter is absent exactly when there are no senders and neither time bound is truthy |
| DynamoDb.MessagesFilterSemantics | mcp_server/dynamodb.py:20-36 | an item passes exactly when its sender is listed (or none is), its timestamp is at least `_from` (when truthy) and at most `_to` (when truthy) |
| DynamoDb.FilterExpression | mcp_server/dynamodb.py:20-36 | the loop over the senders builds exactly `MessagesFilter` |
| DynamoDb.FirstQueryAsWritten | mcp_server/dynamodb.py:20-45 | as written, the first query raises ParamValidationError exactly when there are no senders and neither bound is truthy, because `FilterExpression=None` is passed; otherwise it is the page request with the built filter |
| DynamoDb.UnfilteredQueryRaisesAsWritten | mcp_server/dynamodb.py:15-45 | the default call, and the call with an empty sender list and bounds of 0, raise before any page is fetched |
| DynamoDb.UnfilteredQueryKeepsEveryItem | mcp_server/dynamodb.py:20-45 | with the filter left out when none is built, the request carries no filter and every item of the partition passes |
| DynamoDb.WalkUnique | mcp_server/dynamodb.py:49-57 | once the cursors run out, the pages fetched do not depend on how many more requests would be allowed |
| DynamoDb.WalkFollowsCursors | mcp_server/dynamodb.py:38-57 | the first page answers the initial request; each later page answers the same request resumed at the previous cursor; every page but the last has a cursor and the last has none |
| DynamoDb.GetMessages | mcp_server/dynamodb.py:15-59 | the result is the concatenation, in order, of the items of every page fetched while following cursors from the user's first page request |
| DynamoDb.FetchPages | mcp_server/dynamodb.py:38-59 | the page loop returns the items of every page, in order, from the first request through each cursor to the page without one |
| DynamoDb.WalkUniqueAll | mcp_server/dynamodb.py:49-57 | every request budget that reaches the last page yields the same pages |
| DynamoDb.FlattenSnoc | mcp_server/dynamodb.py:47-57 | extending the collected items by one more page appends exactly that page's items |
| DynamoDb.FetchedItemsSatisfyFilter | mcp_server/dynamodb.py:40-57 | with a table that honours the request filter, every collected item satisfies the filter of the first request, which every later request shares |
| DynamoDb.CollectedMessagesMatchQuery | mcp_server/dynamodb.py:15-59 | with such a table, every collected message matches the senders and the time bounds asked for |
| DynamoDb.RowToken | mcp_server/dynamodb.py:71 | a row without `auth_details` raises KeyError for that key; a row's token is readable exactly when `auth_details` is a string that decodes to an object holding `refresh_token`, and the token is that value |
| DynamoDb.RefreshTokens | mcp_server/dynamodb.py:71 | one token per row, in row order, or the error of the first row whose token cannot be read |
| DynamoDb.ShapeTokens | mcp_server/dynamodb.py:73 | no rows give no token, one row gives that token, several rows give the whole list |
| DynamoDb.ShapeTokensRoundTrip | mcp_server/dynamodb.py:73 | the shaped result can be read back as the original token list |
| DynamoDb.GetRefreshToken | mcp_server/dynamodb.py:61-73 | the query on the Gmail rows succeeds exactly when every token is readable; the shaped result stands for exactly those tokens, in row order; it is no token exactly when there is no row, the bare token exactly when there is one row, and the list exactly when there are several |
| DynamoDb.GetMessageItem | mcp_server/dynamodb.py:75-85 | the item exists exactly when the key is stored; it then holds exactly the stored values of the projected attributes |

## Findings

| source | as written | input that shows it | evidently intended | confidence | as-written member | corrected member |
|---|---|---|---|---|---|---|
| mcp_server/reasoning_engine.py:55-59 | `__validate_response` computes `response.get("date", {}).keys()` even when `date` is not a dict, and calls `.get` on an answer that is not a dict; either raises | the answer `{"date": "last week"}`, or a JSON list | the answer is judged unusable, so `get_additional_filters` returns `{}`, as the `isinstance` check shows | high; not executed | ReasoningEngine.ValidateAsWrittenRaisesOnTextDate | ReasoningEngine.NonMappingDateYieldsEmptyFilter |
| mcp_server/dynamodb.py:24-25,40-45,50-56 | with no sender and no truthy bound, `filter_expression` stays `None` and is passed as `FilterExpression=None`; the DynamoDB client's parameter validation rejects a `None` parameter and raises ParamValidationError before any page is read | `get_messages(hash_key)` with every optional argument left at its default | the query runs without a filter and returns every message of the user | medium; not executed | DynamoDb.UnfilteredQueryRaisesAsWritten | DynamoDb.UnfilteredQueryKeepsEveryItem |

`ReasoningEngine.ValidateResponseAsWritten` models the code as written.
`ReasoningEngine.ValidateResponse` is the corrected validation, and
`GetAdditionalFilters` uses it.

`DynamoDb.FirstQueryAsWritten` models the first query as written.
`DynamoDb.GetMessages` and `DynamoDb.FetchPages` leave the filter out of a
request when none is built, and `DynamoDb.UnfilteredQueryKeepsEveryItem`
states what that request keeps.

## Left out

- The completion service, `json.loads` and dateutil's free-text date parsing
  are function parameters (`complete`, `parse`, `dateTs`). The clock is the
  parameter `now`, and the local UTC offset is the parameter `offset`.
- These parameters and the table are total functions, so the model's
  collaborators never fail. An error raised by `table.query` or `table.get_item`
  is not modelled, and neither is a completion that is `None`, on which
  `json.loads` raises TypeError, which `__parse_response` does not catch.
- Local time is a fixed offset. Daylight-saving changes and time zones
  attached to the UI dates are not modelled.
- strptime's `\d` also matches non-ASCII decimal digits. The model accepts
  only ASCII digits. Its white space is Python's `\s`: the ASCII white space,
  U+001C to U+001F, and the Unicode space and line-separator characters.
- JSON numbers are integers. Floating-point values are not modelled. Every
  number is rejected as a date value either way, and 0 and 0.0 are both falsy.
- `Stamped` has a single error, `DateConversionError`, for a date value that
  is not a string (TypeError) and for one dateutil cannot read (ValueError).
  Which of these is raised first depends on the dict's iteration order, and the
  model keeps no order.
- ConvertToTimestamp: the source overwrites the values inside the caller's
  dict. The model returns a new map. Nothing else holds that dict, and on an
  error the partly converted dict is discarded.
- The DynamoDB table is a function from a request to the page it returns.
  `Eval` gives conditions their meaning only for numbers and strings, with
  `contains` only on list attributes. Where DynamoDB would reject an operand
  of another type, the model evaluates the comparison as false.
- `Eval` reads `Between(a, lo, hi)` with `lo > hi` as keeping no item, while
  DynamoDB rejects such a BETWEEN with a ValidationException. The translator
  builds one when a reasoning `$gte` lies after `now` and no `$lte` is given
  (mcp_server/reasoning_engine.py:82-85), and when a UI start date lies after
  the end date (mcp_server/reasoning_engine.py:111-113). The meanings that
  `UiDateCondition`, `JoinResult` and `ConvertPineconeFilterToDynamoDbFilter`
  state through `Eval` do not cover that rejection.
- GetMessages: its precondition requires that following cursors reaches a page
  without one. The source loops forever otherwise.
- GetMessages: when no filter is built, the model sends the request without a
  filter expression. The source passes `FilterExpression=None` and the call
  raises. That behaviour is modelled separately by `FirstQueryAsWritten` and
  logged under Findings.
- The message query's partition key is spelled `"email_hash "`, with a
  trailing space, at `mcp_server/dynamodb.py:41`. The model copies the spelling
  into every request. It does not model how the table reacts to it.
- `get_refresh_token` reads only the first page of its query, as the source
  does.
- The client objects `ReasoningEngine` and `DynamoDbClient` are not classes
  here. They hold only a network client or table names read from the
  environment, and never change them. The message printed on a decode failure
  is not modelled.
- The rest of the repository is not part of this model: the Gmail actions,
  the Lambda handler and its module-level globals, JWT checks, the OpenAI and
  Pinecone clients, logging, the JSON encoder and the session store.
