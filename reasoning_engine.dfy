/** The reasoning filter: a completion service answers a question about the
    user's messages with a JSON object whose `date` entry maps comparison
    operators to free-text dates. The engine validates that answer, turns
    each date into a Unix timestamp, and translates it, together with the
    UI filter, into one DynamoDB filter condition. */
module ReasoningEngine {
  import opened Values
  import opened Conditions
  import opened Models

  /** The comparison operators a reasoning answer may use under `date`. */
  const Operators: set<string> := {"$lte", "$gte", "$eq", "$ne", "$gt", "$lt"}

  // ---------------------------------------------------------------------
  // Asking the completion service

  /** `str(n)`: the decimal digits of `n`, without leading zeros. */
  function DecimalString(n: nat): (r: string)
    ensures r != [] && AllDigits(r) && DigitsValue(r) == n
  {
    var last := [('0' as int + n % 10) as char];
    if n < 10 then
      assert DigitsValue(last) == 10 * DigitsValue(last[..0]) + DigitValue(last[0]);
      last
    else
      var r := DecimalString(n / 10) + last;
      assert r[..|r| - 1] == DecimalString(n / 10);
      r
  }

  /** Reads "DD/MM/Y..." back as (day, month, year): two digits, a slash,
      two digits, a slash, and the year's digits. */
  function ReadDate(s: string): Option<(nat, nat, nat)>
  {
    if |s| >= 7 && AllDigits(s[..2]) && s[2] == '/' && AllDigits(s[3..5]) && s[5] == '/' && AllDigits(s[6..])
    then Some((DigitsValue(s[..2]), DigitsValue(s[3..5]), DigitsValue(s[6..])))
    else None
  }

  /** `now.strftime("%d/%m/%Y")`. */
  function DateText(now: CalendarDateTime): (r: string)
    ensures ReadDate(r) == Some((now.day, now.month, now.year))
  {
    var r := Pad2(now.day) + "/" + Pad2(now.month) + "/" + DecimalString(now.year);
    assert r[..2] == Pad2(now.day) && r[3..5] == Pad2(now.month) && r[6..] == DecimalString(now.year);
    r
  }

  /** The prompt layout: the question, " Current date: ", the date, a
      space and the five-character time. */
  function WithDate(question: string, date: string, time: string): (r: string)
    requires |time| == 5
    ensures |r| == |question| + 15 + |date| + 6
    ensures r[..|question|] == question && r[|question|..|question| + 15] == " Current date: "
    ensures r[|question| + 15..|r| - 6] == date && r[|r| - 6] == ' ' && r[|r| - 5..] == time
  {
    question + " Current date: " + date + " " + time
  }

  /** The user text sent to the completion service: the question, then
      " Current date: ", then the current date as DD/MM/YYYY, a space, and
      the current time as HH:MM. */
  function PromptText(userInput: string, now: CalendarDateTime): (r: string)
    ensures |r| >= |userInput| + 15 + 7 + 6 && r[..|userInput|] == userInput
    ensures r[|userInput|..|userInput| + 15] == " Current date: " && r[|r| - 6] == ' '
    ensures r[|userInput| + 15..|r| - 6] == DateText(now)
    ensures r[|r| - 5..] == FormatClock(Clock(now.hour, now.minute))
  {
    WithDate(userInput, DateText(now), FormatClock(Clock(now.hour, now.minute)))
  }

  /** The date and the time in the prompt read back as `now`'s day, month,
      year, hour and minute. */
  lemma PromptCarriesNow(userInput: string, now: CalendarDateTime)
    ensures var r := PromptText(userInput, now);
      ReadDate(r[|userInput| + 15..|r| - 6]) == Some((now.day, now.month, now.year))
      && ParseClock(r[|r| - 5..]) == Some(Clock(now.hour, now.minute))
  {
    ParseFormattedClock(Clock(now.hour, now.minute));
  }

  // ---------------------------------------------------------------------
  // Parsing and validating the answer

  /** `json.loads(answer)`, with a decode failure read as `{}`. */
  function ParseResponse(answer: string, parse: string -> Option<Json>): (r: Json)
    ensures parse(answer).None? ==> r == JObj(map[])
    ensures parse(answer).Some? ==> r == parse(answer).value
  {
    match parse(answer)
    case Some(j) => j
    case None => JObj(map[])
  }

  /** `__validate_response` exactly as written: all three conditions are
      computed before they are combined, so `.keys()` is called on a `date`
      value that is not a dict, and `in`/`.get` on an answer that is not an
      object; both raise instead of returning False. */
  function ValidateResponseAsWritten(response: Json): (r: Result<bool>)
    ensures r.Err? <==> !response.JObj? || ("date" in response.fields && !response.fields["date"].JObj?)
    ensures r.Err? ==> r.error == (if response.JObj? || response.JArr? || response.JStr? then AttributeError else TypeError)
    ensures r.Ok? ==> (r.value <==> "date" in response.fields
                                     && forall k :: k in response.fields["date"].fields ==> k in Operators)
  {
    match response
    case JObj(fields) =>
      var hasDate := "date" in fields;
      var isDict := hasDate && fields["date"].JObj?;
      var date := if hasDate then fields["date"] else JObj(map[]);
      if !date.JObj? then Err(AttributeError)
      else Ok(hasDate && isDict && forall k :: k in date.fields ==> k in Operators)
    case JArr(_) => Err(AttributeError)
    case JStr(_) => Err(AttributeError)
    case _ => Err(TypeError)
  }

  /** Whether an answer is a usable date filter: an object with a `date`
      entry that is itself an object whose keys are all operators. It agrees
      with the validation as written wherever that returns, and rejects
      every answer on which that raises. */
  predicate ValidateResponse(response: Json): (ok: bool)
    ensures ValidateResponseAsWritten(response).Ok? ==> ok == ValidateResponseAsWritten(response).value
    ensures ValidateResponseAsWritten(response).Err? ==> !ok
  {
    response.JObj? && "date" in response.fields && response.fields["date"].JObj?
    && forall k :: k in response.fields["date"].fields ==> k in Operators
  }

  /** An answer whose `date` is free text makes the validation as written
      raise, where the intended result is "not usable". */
  lemma ValidateAsWrittenRaisesOnTextDate()
    ensures ValidateResponseAsWritten(JObj(map["date" := JStr("last week")])) == Err(AttributeError)
    ensures !ValidateResponse(JObj(map["date" := JStr("last week")]))
  {
  }

  lemma EmptyDateIsValid()
    ensures ValidateResponse(JObj(map["date" := JObj(map[])]))
    ensures !ValidateResponse(JObj(map[]))
  {
  }

  // ---------------------------------------------------------------------
  // Turning dates into timestamps

  /** `int(dateutil.parser.parse(v, dayfirst=True).timestamp())`; `dateTs`
      stands for the parse and the local-time conversion, and fails where
      they raise. A value that is not a string cannot be parsed. */
  function Stamp(v: Json, dateTs: string -> Option<int>): Option<int>
  {
    match v
    case JStr(s) => dateTs(s)
    case _ => None
  }

  /** The answer after every value under `date` has been replaced by its
      timestamp: the same keys everywhere, every date value an integer, and
      every entry other than `date` untouched. */
  function Stamped(response: map<string, Json>, dateTs: string -> Option<int>): (r: Result<map<string, Json>>)
    ensures r.Ok? <==> ("date" !in response
                        || (response["date"].JObj?
                            && forall k :: k in response["date"].fields ==> Stamp(response["date"].fields[k], dateTs).Some?))
    ensures r.Err? ==> r.error == (if response["date"].JObj? then DateConversionError else AttributeError)
    ensures r.Ok? ==> (r.value.Keys == response.Keys
                       && forall k :: k in response && k != "date" ==> r.value[k] == response[k])
    ensures r.Ok? && "date" in response ==>
      r.value["date"].JObj? && r.value["date"].fields.Keys == response["date"].fields.Keys
      && forall k :: k in response["date"].fields ==>
           r.value["date"].fields[k] == JNum(Stamp(response["date"].fields[k], dateTs).value)
  {
    if "date" !in response then Ok(response)
    else
      match response["date"]
      case JObj(date) =>
        if forall k :: k in date ==> Stamp(date[k], dateTs).Some? then
          Ok(response["date" := JObj(map k | k in date :: JNum(Stamp(date[k], dateTs).value))])
        else Err(DateConversionError)
      case _ => Err(AttributeError)
  }

  /** `__convert_to_timestamp`: overwrites each value under `date`, one key
      at a time, with its timestamp. */
  method ConvertToTimestamp(response: map<string, Json>, dateTs: string -> Option<int>)
    returns (r: Result<map<string, Json>>)
    ensures r == Stamped(response, dateTs)
  {
    if "date" !in response {
      return Ok(response);
    }
    if !response["date"].JObj? {
      return Err(AttributeError);
    }
    var date := response["date"].fields;
    var converted := date;
    var pending := date.Keys;
    while pending != {}
      invariant pending <= date.Keys && converted.Keys == date.Keys
      invariant forall k :: k in pending ==> converted[k] == date[k]
      invariant forall k :: k in date && k !in pending ==>
        Stamp(date[k], dateTs).Some? && converted[k] == JNum(Stamp(date[k], dateTs).value)
      decreases pending
    {
      var key :| key in pending;
      var ts := Stamp(converted[key], dateTs);
      if ts.None? {
        return Err(DateConversionError);
      }
      converted := converted[key := JNum(ts.value)];
      pending := pending - {key};
    }
    assert converted == map k | k in date :: JNum(Stamp(date[k], dateTs).value);
    r := Ok(response["date" := JObj(converted)]);
  }

  /** A stamped reasoning filter: if it has a `date` entry, that entry is an
      object of operators to integers. */
  predicate StampedFilter(f: map<string, Json>)
  {
    "date" in f ==>
      f["date"].JObj?
      && forall k :: k in f["date"].fields ==> k in Operators && f["date"].fields[k].JNum?
  }

  /** What `get_additional_filters` returns for a given answer: the stamped
      answer when it is a usable date filter, the empty filter otherwise. */
  function AdditionalFilters(answer: string, parse: string -> Option<Json>, dateTs: string -> Option<int>)
    : (r: Result<map<string, Json>>)
    ensures !ValidateResponse(ParseResponse(answer, parse)) ==> r == Ok(map[])
    ensures parse(answer).None? ==> r == Ok(map[])
    ensures r.Ok? ==> StampedFilter(r.value)
    ensures r.Err? ==> r.error == DateConversionError
    ensures parse(answer).Some? && ValidateResponse(parse(answer).value) ==>
      r == Stamped(parse(answer).value.fields, dateTs)
  {
    var response := ParseResponse(answer, parse);
    if ValidateResponse(response) then Stamped(response.fields, dateTs) else Ok(map[])
  }

  /** `get_additional_filters`: ask the completion service, parse and
      validate its answer, and stamp the dates of a usable one. */
  method GetAdditionalFilters(userInput: string, now: CalendarDateTime, complete: string -> string,
                              parse: string -> Option<Json>, dateTs: string -> Option<int>)
    returns (r: Result<map<string, Json>>)
    ensures r == AdditionalFilters(complete(PromptText(userInput, now)), parse, dateTs)
  {
    var answer := complete(PromptText(userInput, now));
    var response := ParseResponse(answer, parse);
    if ValidateResponse(response) {
      r := ConvertToTimestamp(response.fields, dateTs);
    } else {
      r := Ok(map[]);
    }
  }

  /** An answer that is not an object, or whose `date` is not an object,
      degrades to the empty filter. */
  lemma NonMappingDateYieldsEmptyFilter(answer: string, parse: string -> Option<Json>, dateTs: string -> Option<int>)
    requires parse(answer).Some?
    requires var j := parse(answer).value; !j.JObj? || ("date" in j.fields && !j.fields["date"].JObj?)
    ensures AdditionalFilters(answer, parse, dateTs) == Ok(map[])
  {
  }

  // ---------------------------------------------------------------------
  // Translating into a DynamoDB filter condition

  /** `ui_filter and (ui_filter.start_date or ui_filter.end_date)`. */
  predicate UiFiltersByDate(ui: Option<QueryFilter>)
  {
    ui.Some? && (ui.value.startDate.Some? || ui.value.endDate.Some?)
  }

  /** `date_filters.get('$lte', now)`. */
  function UpperBound(dateFilters: map<string, Json>, now: int): Json
  {
    if "$lte" in dateFilters then dateFilters["$lte"] else JNum(now)
  }

  /** The range the reasoning filter asks for: `$gte` up to `$lte`, or up to
      `now` when `$lte` is absent, and nothing unless both bounds are truthy. */
  function RelativeDateCondition(dateFilters: Json, now: int): (r: Result<Option<Cond>>)
    ensures r.Ok? <==> dateFilters.JObj?
    ensures r.Err? ==> r.error == AttributeError
    ensures r.Ok? ==> (r.value.Some? <==>
      "$gte" in dateFilters.fields && Truthy(dateFilters.fields["$gte"])
      && Truthy(UpperBound(dateFilters.fields, now)))
    ensures r.Ok? && r.value.Some? ==>
      r.value.value == Between(CreatedAtTimestamp, dateFilters.fields["$gte"], UpperBound(dateFilters.fields, now))
  {
    match dateFilters
    case JObj(fields) =>
      var gte := if "$gte" in fields then fields["$gte"] else JNull;
      var lte := UpperBound(fields, now);
      if Truthy(gte) && Truthy(lte) then Ok(Some(Between(CreatedAtTimestamp, gte, lte))) else Ok(None)
    case _ => Err(AttributeError)
  }

  /** `list(filter(lambda x: x != "ALL", inboxes))`. */
  function NotAll(inboxes: seq<Inbox>): (r: seq<Inbox>)
    ensures forall i :: i in r <==> i in inboxes && i != All
  {
    if inboxes == [] then []
    else (if inboxes[0] != All then [inboxes[0]] else []) + NotAll(inboxes[1..])
  }

  function InboxNames(inboxes: seq<Inbox>): (r: seq<Json>)
    ensures |r| == |inboxes| && forall i :: 0 <= i < |r| ==> r[i] == JStr(InboxName(inboxes[i]))
  {
    seq(|inboxes|, i requires 0 <= i < |inboxes| => JStr(InboxName(inboxes[i])))
  }

  /** The inbox condition: present exactly when some listed inbox is not
      "ALL"; its operand is the whole list as given. */
  function InboxCondition(u: QueryFilter): (r: Option<Cond>)
    ensures r.Some? <==> u.inboxes.Some? && Gmail in u.inboxes.value
    ensures r.Some? ==> r.value == Contains(ProvidedKey, JArr(InboxNames(u.inboxes.value)))
  {
    if u.inboxes.Some? && u.inboxes.value != [] && |NotAll(u.inboxes.value)| > 0 then
      assert NotAll(u.inboxes.value)[0] in NotAll(u.inboxes.value);
      Some(Contains(ProvidedKey, JArr(InboxNames(u.inboxes.value))))
    else
      assert u.inboxes.Some? ==> (Gmail in NotAll(u.inboxes.value) <==> Gmail in u.inboxes.value);
      None
  }

  /** The date condition of the UI filter by cases: both dates give a range,
      a start alone a lower bound, an end alone an upper bound, no date none. */
  function UiDateCondition(u: QueryFilter, offset: int): (r: Result<Option<Cond>>)
    ensures r.Ok? <==> (u.startDate.Some? ==> StartDateTimestamp(u, offset).Ok?)
                       && (u.endDate.Some? ==> EndDateTimestamp(u, offset).Ok?)
    ensures r.Err? ==> r.error == ValueError
    ensures r.Ok? ==> (r.value.None? <==> u.startDate.None? && u.endDate.None?)
    ensures r.Ok? && r.value.Some? ==> forall item ::
      Eval(r.value.value, item) <==>
        CreatedAtTimestamp in item
        && (u.startDate.Some? ==> Le(JNum(StartDateTimestamp(u, offset).value), item[CreatedAtTimestamp]))
        && (u.endDate.Some? ==> Le(item[CreatedAtTimestamp], JNum(EndDateTimestamp(u, offset).value)))
  {
    if u.startDate.Some? && u.endDate.Some? then
      var lo :- StartDateTimestamp(u, offset);
      var hi :- EndDateTimestamp(u, offset);
      Ok(Some(Between(CreatedAtTimestamp, JNum(lo), JNum(hi))))
    else if u.startDate.Some? then
      var lo :- StartDateTimestamp(u, offset);
      Ok(Some(Gte(CreatedAtTimestamp, JNum(lo))))
    else if u.endDate.Some? then
      var hi :- EndDateTimestamp(u, offset);
      Ok(Some(Lte(CreatedAtTimestamp, JNum(hi))))
    else
      Ok(None)
  }

  /** AND a condition that may fail or be absent onto an optional one. */
  function JoinResult(f: Option<Cond>, c: Result<Option<Cond>>): (r: Result<Option<Cond>>)
    ensures r.Ok? <==> c.Ok?
    ensures r.Err? ==> r.error == c.error
    ensures r.Ok? ==> ConjunctsOpt(r.value) == ConjunctsOpt(f) + ConjunctsOpt(c.value)
    ensures r.Ok? ==> forall item :: EvalOpt(r.value, item) <==> EvalOpt(f, item) && EvalOpt(c.value, item)
  {
    match c
    case Err(e) => Err(e)
    case Ok(None) => Ok(f)
    case Ok(Some(x)) => Ok(Some(Join(f, x)))
  }

  /** `PineconeFilterConverter.convert_ui_filter_to_dynamodb_filter`: the
      inbox condition, then, when the UI filters by date, the date
      condition. Recipients and the sender address play no part. */
  function ConvertUiFilterToDynamoDbFilter(u: QueryFilter, byDate: bool, offset: int): (r: Result<Option<Cond>>)
    ensures !byDate ==> r == Ok(InboxCondition(u))
    ensures byDate ==> r == JoinResult(InboxCondition(u), UiDateCondition(u, offset))
  {
    var ddbFilter := InboxCondition(u);
    if u.startDate.Some? && u.endDate.Some? && byDate then
      var lo :- StartDateTimestamp(u, offset);
      var hi :- EndDateTimestamp(u, offset);
      Ok(Some(Join(ddbFilter, Between(CreatedAtTimestamp, JNum(lo), JNum(hi)))))
    else
      var withStart :-
        if u.startDate.Some? && byDate then
          var lo :- StartDateTimestamp(u, offset);
          Ok(Some(Join(ddbFilter, Gte(CreatedAtTimestamp, JNum(lo)))))
        else Ok(ddbFilter);
      if u.endDate.Some? && byDate then
        var hi :- EndDateTimestamp(u, offset);
        Ok(Some(Join(withStart, Lte(CreatedAtTimestamp, JNum(hi)))))
      else Ok(withStart)
  }

  /** The reasoning part of the translation: the relative range, unless the
      UI filters by date itself. */
  function ReasoningPart(filter: Option<map<string, Json>>, ui: Option<QueryFilter>, now: int): Result<Option<Cond>>
  {
    if DictTruthy(filter) && "date" in filter.value && !UiFiltersByDate(ui) then
      RelativeDateCondition(filter.value["date"], now)
    else Ok(None)
  }

  /** The UI part of the translation. */
  function UiPart(ui: Option<QueryFilter>, offset: int): Result<Option<Cond>>
  {
    if ui.Some? then ConvertUiFilterToDynamoDbFilter(ui.value, UiFiltersByDate(ui), offset) else Ok(None)
  }

  /** `ReasoningEngine.convert_pinecone_filter_to_dynamodb_filter`. No
      condition without either filter; an explicit UI date replaces the
      reasoning range entirely; otherwise the reasoning range comes first
      and the UI condition is ANDed onto it. */
  function ConvertPineconeFilterToDynamoDbFilter(filter: Option<map<string, Json>>, ui: Option<QueryFilter>,
                                                 now: int, offset: int): (r: Result<Option<Cond>>)
    ensures !DictTruthy(filter) && ui.None? ==> r == Ok(None)
    ensures UiFiltersByDate(ui) ==> r == ConvertUiFilterToDynamoDbFilter(ui.value, true, offset)
    ensures r.Ok? <==> ReasoningPart(filter, ui, now).Ok? && UiPart(ui, offset).Ok?
    ensures r.Ok? ==>
      ConjunctsOpt(r.value) == ConjunctsOpt(ReasoningPart(filter, ui, now).value) + ConjunctsOpt(UiPart(ui, offset).value)
    ensures r.Ok? ==> forall item ::
      EvalOpt(r.value, item) <==> EvalOpt(ReasoningPart(filter, ui, now).value, item) && EvalOpt(UiPart(ui, offset).value, item)
  {
    if !DictTruthy(filter) && ui.None? then Ok(None)
    else
      var byDate := UiFiltersByDate(ui);
      var relative :-
        if DictTruthy(filter) && "date" in filter.value && !byDate then RelativeDateCondition(filter.value["date"], now)
        else Ok(None);
      if ui.Some? then
        var uiFilter :- ConvertUiFilterToDynamoDbFilter(ui.value, byDate, offset);
        if uiFilter.Some? then Ok(Some(Join(relative, uiFilter.value))) else Ok(relative)
      else Ok(relative)
  }

  // ---------------------------------------------------------------------
  // Properties of the translation

  /** No reasoning filter and a UI filter that restricts nothing give no
      condition at all. */
  lemma NoFiltersNoCondition(filter: Option<map<string, Json>>, ui: Option<QueryFilter>, now: int, offset: int)
    requires !DictTruthy(filter)
    requires ui.Some? ==> !UiFiltersByDate(ui) && InboxCondition(ui.value).None?
    ensures ConvertPineconeFilterToDynamoDbFilter(filter, ui, now, offset) == Ok(None)
  {
  }

  /** Under an explicit UI date the reasoning filter and the clock play no
      part: the result is the same as with no reasoning filter at all. */
  lemma UiDateOverridesReasoning(filter: Option<map<string, Json>>, u: QueryFilter, now: int, now': int, offset: int)
    requires UiFiltersByDate(Some(u))
    ensures ConvertPineconeFilterToDynamoDbFilter(filter, Some(u), now, offset)
         == ConvertPineconeFilterToDynamoDbFilter(None, Some(u), now', offset)
  {
  }

  /** A date condition built from the UI's own timestamps: a range when both
      dates are set, otherwise the one bound that is set. */
  predicate FromUiDates(c: Cond, u: QueryFilter, offset: int)
  {
    (c.Between? ==> u.startDate.Some? && u.endDate.Some?
                    && StartDateTimestamp(u, offset).Ok? && EndDateTimestamp(u, offset).Ok?
                    && c == Between(CreatedAtTimestamp, JNum(StartDateTimestamp(u, offset).value),
                                    JNum(EndDateTimestamp(u, offset).value)))
    && (c.Gte? ==> u.startDate.Some? && u.endDate.None? && StartDateTimestamp(u, offset).Ok?
                   && c == Gte(CreatedAtTimestamp, JNum(StartDateTimestamp(u, offset).value)))
    && (c.Lte? ==> u.endDate.Some? && u.startDate.None? && EndDateTimestamp(u, offset).Ok?
                   && c == Lte(CreatedAtTimestamp, JNum(EndDateTimestamp(u, offset).value)))
  }

  /** Under an explicit UI date every date condition in the result is built
      from the UI's own timestamps. */
  lemma UiDateExcludesReasoningRange(filter: Option<map<string, Json>>, u: QueryFilter, now: int, offset: int)
    requires UiFiltersByDate(Some(u))
    requires ConvertPineconeFilterToDynamoDbFilter(filter, Some(u), now, offset).Ok?
    ensures forall c :: c in ConjunctsOpt(ConvertPineconeFilterToDynamoDbFilter(filter, Some(u), now, offset).value) ==>
      FromUiDates(c, u, offset)
  {
    var inbox := InboxCondition(u);
    var date := UiDateCondition(u, offset);
    var r := ConvertPineconeFilterToDynamoDbFilter(filter, Some(u), now, offset);
    assert r == JoinResult(inbox, date);
    assert ConjunctsOpt(r.value) == ConjunctsOpt(inbox) + ConjunctsOpt(date.value);
    assert ConjunctsOpt(inbox) == [] || ConjunctsOpt(inbox) == [inbox.value];
    UiDateConditionShape(u, offset);
  }

  /** Each case of the UI date condition uses the matching stamps. */
  lemma UiDateConditionShape(u: QueryFilter, offset: int)
    requires UiDateCondition(u, offset).Ok?
    ensures forall c :: c in ConjunctsOpt(UiDateCondition(u, offset).value) ==> FromUiDates(c, u, offset)
  {
  }

  /** Recipients and the sender address never contribute a condition. */
  lemma RecipientsAndSenderIgnored(u: QueryFilter, recipients: Option<seq<string>>, fromEmail: Option<string>,
                                   byDate: bool, offset: int)
    ensures ConvertUiFilterToDynamoDbFilter(u.(recipients := recipients, fromEmail := fromEmail), byDate, offset)
         == ConvertUiFilterToDynamoDbFilter(u, byDate, offset)
  {
  }

  /** A filter that came out of `get_additional_filters` never makes the
      translation raise, and any range it yields has integer bounds. */
  lemma AdditionalFiltersTranslate(answer: string, parse: string -> Option<Json>, dateTs: string -> Option<int>,
                                   ui: Option<QueryFilter>, now: int)
    requires AdditionalFilters(answer, parse, dateTs).Ok?
    ensures ReasoningPart(Some(AdditionalFilters(answer, parse, dateTs).value), ui, now).Ok?
    ensures var p := ReasoningPart(Some(AdditionalFilters(answer, parse, dateTs).value), ui, now);
      p.value.Some? ==> p.value.value.Between? && p.value.value.low.JNum? && p.value.value.high.JNum?
  {
    var f := AdditionalFilters(answer, parse, dateTs).value;
    assert StampedFilter(f);
    if DictTruthy(Some(f)) && "date" in f && !UiFiltersByDate(ui) {
      var fields := f["date"].fields;
      assert "$gte" in fields ==> fields["$gte"].JNum?;
      assert "$lte" in fields ==> fields["$lte"].JNum?;
    }
  }
}
