/** The DynamoDB client: the paginated, per-user message query with its
    sender and time filter, the refresh-token lookup, and the single-message
    lookup. The table itself is a parameter: a function from a request to
    the page it answers. */
module DynamoDb {
  import opened Values
  import opened Conditions

  /** The partition key attribute of the message query, spelled as the
      client spells it (with a trailing space). */
  const MessagesHashKey: string := "email_hash "
  const PageLimit: nat := 100

  /** `LastEvaluatedKey` / `ExclusiveStartKey`: an opaque primary key. */
  type Cursor = map<string, Json>

  /** One `table.query` call on the messages table. */
  datatype Request = Request(keyName: string, keyValue: string, filter: Option<Cond>,
                             scanIndexForward: bool, limit: nat, exclusiveStartKey: Option<Cursor>)

  /** One response: the page's items and, when more remain, a cursor. */
  datatype Page = Page(items: seq<Item>, lastEvaluatedKey: Option<Cursor>)

  /** Every page request: the user's partition, the filter, newest first,
      at most 100 items, starting after `start`. */
  function PageRequest(hashKey: string, filter: Option<Cond>, start: Option<Cursor>): Request
  {
    Request(MessagesHashKey, hashKey, filter, false, PageLimit, start)
  }

  // ---------------------------------------------------------------------
  // The filter expression

  /** `Attr("message_from").eq(s0) | Attr("message_from").eq(s1) | ...`,
      nested to the left. */
  function SenderChain(senders: seq<string>): (r: Cond)
    requires senders != []
    ensures forall item :: Eval(r, item) <==> SentByOneOf(item, senders)
    decreases |senders|
  {
    var init := senders[..|senders| - 1];
    var last := Eq(MessageFrom, JStr(senders[|senders| - 1]));
    if |senders| == 1 then last
    else
      assert forall s :: s in senders <==> s in init || s == senders[|senders| - 1] by {
        assert senders == init + [senders[|senders| - 1]];
      }
      Or(SenderChain(init), last)
  }

  /** The item was sent by one of `senders`. */
  predicate SentByOneOf(item: Item, senders: seq<string>)
  {
    MessageFrom in item && exists s :: s in senders && item[MessageFrom] == JStr(s)
  }

  /** The sender chain is a left-nested OR whose operands are one equality
      per sender, in list order. */
  lemma {:induction false} SenderChainShape(senders: seq<string>)
    requires senders != []
    ensures |LeftOrSpine(SenderChain(senders))| == |senders|
    ensures forall i :: 0 <= i < |senders| ==>
      LeftOrSpine(SenderChain(senders))[i] == Eq(MessageFrom, JStr(senders[i]))
  {
    if |senders| > 1 {
      SenderChainShape(senders[..|senders| - 1]);
    }
  }

  /** The filter expression of `get_messages`: the sender chain, then the
      lower and the upper time bound ANDed on; a bound of 0 counts as absent. */
  function MessagesFilter(sender: Option<seq<string>>, from: Option<int>, to: Option<int>): (r: Option<Cond>)
    ensures r.None? <==> (sender.None? || sender.value == []) && !IntTruthy(from) && !IntTruthy(to)
  {
    var bySender := if sender.Some? && sender.value != [] then Some(SenderChain(sender.value)) else None;
    var withFrom := if IntTruthy(from) then Some(Join(bySender, Gte(CreatedAtTimestamp, JNum(from.value)))) else bySender;
    if IntTruthy(to) then Some(Join(withFrom, Lte(CreatedAtTimestamp, JNum(to.value)))) else withFrom
  }

  predicate HasTimestamp(item: Item)
  {
    CreatedAtTimestamp in item && item[CreatedAtTimestamp].JNum?
  }

  /** An item passes the filter exactly when it was sent by one of the
      senders (or no sender was given), is no older than `from` (when given)
      and no newer than `to` (when given). */
  lemma MessagesFilterSemantics(sender: Option<seq<string>>, from: Option<int>, to: Option<int>, item: Item)
    ensures EvalOpt(MessagesFilter(sender, from, to), item) <==>
      (sender.None? || sender.value == [] || SentByOneOf(item, sender.value))
      && (IntTruthy(from) ==> HasTimestamp(item) && item[CreatedAtTimestamp].n >= from.value)
      && (IntTruthy(to) ==> HasTimestamp(item) && item[CreatedAtTimestamp].n <= to.value)
  {
  }

  /** `get_messages` exactly as written passes `FilterExpression=None` when it
      has built no filter; the client's parameter validation rejects a `None`
      string parameter, so the call raises before any page is fetched. */
  function FirstQueryAsWritten(hashKey: string, sender: Option<seq<string>>, from: Option<int>, to: Option<int>)
    : (r: Result<Request>)
    ensures r.Err? <==> (sender.None? || sender.value == []) && !IntTruthy(from) && !IntTruthy(to)
    ensures r.Err? ==> r.error == ParamValidationError
    ensures r.Ok? ==> r.value.filter.Some? && r.value == PageRequest(hashKey, MessagesFilter(sender, from, to), None)
  {
    var filter := MessagesFilter(sender, from, to);
    if filter.None? then Err(ParamValidationError) else Ok(PageRequest(hashKey, filter, None))
  }

  /** The default call, with no sender and no bounds, raises as written. */
  lemma UnfilteredQueryRaisesAsWritten(hashKey: string)
    ensures FirstQueryAsWritten(hashKey, None, None, None) == Err(ParamValidationError)
    ensures FirstQueryAsWritten(hashKey, Some([]), Some(0), Some(0)) == Err(ParamValidationError)
  {
  }

  /** With no sender and no truthy bound, the corrected query sends no filter
      expression, so every item of the partition passes. */
  lemma UnfilteredQueryKeepsEveryItem(hashKey: string, sender: Option<seq<string>>, from: Option<int>,
                                      to: Option<int>, start: Option<Cursor>)
    requires (sender.None? || sender.value == []) && !IntTruthy(from) && !IntTruthy(to)
    ensures PageRequest(hashKey, MessagesFilter(sender, from, to), start).filter.None?
    ensures forall item :: EvalOpt(PageRequest(hashKey, MessagesFilter(sender, from, to), start).filter, item)
  {
  }

  /** The filter-building part of `get_messages`. */
  method FilterExpression(sender: Option<seq<string>>, from: Option<int>, to: Option<int>)
    returns (filter: Option<Cond>)
    ensures filter == MessagesFilter(sender, from, to)
  {
    if sender.Some? && sender.value != [] {
      var senders := sender.value;
      var chain := Eq(MessageFrom, JStr(senders[0]));
      var i := 1;
      while i < |senders|
        invariant 1 <= i <= |senders|
        invariant chain == SenderChain(senders[..i])
      {
        assert senders[..i + 1][..i] == senders[..i];
        chain := Or(chain, Eq(MessageFrom, JStr(senders[i])));
        i := i + 1;
      }
      assert senders[..i] == senders;
      filter := Some(chain);
    } else {
      filter := None;
    }
    if IntTruthy(from) {
      filter := Some(Join(filter, Gte(CreatedAtTimestamp, JNum(from.value))));
    }
    if IntTruthy(to) {
      filter := Some(Join(filter, Lte(CreatedAtTimestamp, JNum(to.value))));
    }
  }

  // ---------------------------------------------------------------------
  // Pagination

  /** The pages fetched by following cursors from `request`, at most `fuel`
      of them; the walk stops at the first page without a cursor. */
  function Walk(backend: Request -> Page, request: Request, fuel: nat): seq<Page>
    decreases fuel
  {
    if fuel == 0 then []
    else
      var page := backend(request);
      match page.lastEvaluatedKey
      case None => [page]
      case Some(cursor) => [page] + Walk(backend, request.(exclusiveStartKey := Some(cursor)), fuel - 1)
  }

  /** Following cursors from `request` reaches a page without one within
      `fuel` requests. */
  predicate Drains(backend: Request -> Page, request: Request, fuel: nat)
    decreases fuel
  {
    fuel > 0 &&
    match backend(request).lastEvaluatedKey
    case None => true
    case Some(cursor) => Drains(backend, request.(exclusiveStartKey := Some(cursor)), fuel - 1)
  }

  /** Once the cursors run out, more fuel fetches nothing more. */
  lemma {:induction false} WalkUnique(backend: Request -> Page, request: Request, fuel1: nat, fuel2: nat)
    requires Drains(backend, request, fuel1) && Drains(backend, request, fuel2)
    ensures Walk(backend, request, fuel1) == Walk(backend, request, fuel2)
    decreases fuel1
  {
    match backend(request).lastEvaluatedKey
    case None =>
    case Some(cursor) =>
      WalkUnique(backend, request.(exclusiveStartKey := Some(cursor)), fuel1 - 1, fuel2 - 1);
  }

  /** The pages of a drained query: the first answers the request itself,
      each later one answers the same request resumed at the previous page's
      cursor, every page but the last has a cursor, and the last has none. */
  lemma {:induction false} WalkFollowsCursors(backend: Request -> Page, request: Request, fuel: nat)
    requires Drains(backend, request, fuel)
    ensures var pages := Walk(backend, request, fuel);
      pages != [] && pages[0] == backend(request)
      && (forall k :: 0 <= k < |pages| - 1 ==>
            pages[k].lastEvaluatedKey.Some?
            && pages[k + 1] == backend(request.(exclusiveStartKey := pages[k].lastEvaluatedKey)))
      && pages[|pages| - 1].lastEvaluatedKey.None?
    decreases fuel
  {
    match backend(request).lastEvaluatedKey
    case None =>
    case Some(cursor) =>
      var next := request.(exclusiveStartKey := Some(cursor));
      WalkFollowsCursors(backend, next, fuel - 1);
      var rest := Walk(backend, next, fuel - 1);
      var pages := Walk(backend, request, fuel);
      assert pages == [backend(request)] + rest;
      forall k | 0 <= k < |pages| - 1
        ensures pages[k].lastEvaluatedKey.Some?
        ensures pages[k + 1] == backend(request.(exclusiveStartKey := pages[k].lastEvaluatedKey))
      {
        if k > 0 {
          assert next.(exclusiveStartKey := rest[k - 1].lastEvaluatedKey)
              == request.(exclusiveStartKey := rest[k - 1].lastEvaluatedKey);
        }
      }
  }

  /** The items of a sequence of pages, page after page. */
  function Flatten(pages: seq<Page>): seq<Item>
  {
    if pages == [] then [] else Flatten(pages[..|pages| - 1]) + pages[|pages| - 1].items
  }

  lemma {:induction false} FlattenMember(pages: seq<Page>, item: Item)
    requires item in Flatten(pages)
    ensures exists k :: 0 <= k < |pages| && item in pages[k].items
  {
    var init := pages[..|pages| - 1];
    if item !in pages[|pages| - 1].items {
      FlattenMember(init, item);
      var k :| 0 <= k < |init| && item in init[k].items;
      assert pages[k] == init[k];
    }
  }

  /** `DynamoDbClient.get_messages`: build the filter, then fetch page after
      page of the user's partition, newest first, while the table returns a
      cursor, collecting every page's items in order. */
  method GetMessages(backend: Request -> Page, hashKey: string,
                     sender: Option<seq<string>>, from: Option<int>, to: Option<int>)
    returns (items: seq<Item>)
    requires exists fuel: nat :: Drains(backend, PageRequest(hashKey, MessagesFilter(sender, from, to), None), fuel)
    ensures forall fuel: nat :: Drains(backend, PageRequest(hashKey, MessagesFilter(sender, from, to), None), fuel) ==>
      items == Flatten(Walk(backend, PageRequest(hashKey, MessagesFilter(sender, from, to), None), fuel))
  {
    var filter := FilterExpression(sender, from, to);
    items := FetchPages(backend, hashKey, filter);
  }

  /** The page loop of `get_messages`: the first query, then one query per
      cursor, each page's items appended in order. */
  method FetchPages(backend: Request -> Page, hashKey: string, filter: Option<Cond>)
    returns (items: seq<Item>)
    requires exists fuel: nat :: Drains(backend, PageRequest(hashKey, filter, None), fuel)
    ensures forall fuel: nat :: Drains(backend, PageRequest(hashKey, filter, None), fuel) ==>
      items == Flatten(Walk(backend, PageRequest(hashKey, filter, None), fuel))
  {
    ghost var first := PageRequest(hashKey, filter, None);
    ghost var fuel: nat :| Drains(backend, first, fuel);
    ghost var pages := Walk(backend, first, fuel);
    WalkFollowsCursors(backend, first, fuel);
    ghost var i := 0;
    var response := backend(PageRequest(hashKey, filter, None));
    items := response.items;
    assert pages[..1] == [] + [pages[0]];
    FlattenSnoc([], pages[0]);
    while response.lastEvaluatedKey.Some?
      invariant 0 <= i < |pages| && response == pages[i]
      invariant items == Flatten(pages[..i + 1])
      decreases |pages| - i
    {
      assert first.(exclusiveStartKey := response.lastEvaluatedKey)
          == PageRequest(hashKey, filter, response.lastEvaluatedKey);
      response := backend(PageRequest(hashKey, filter, response.lastEvaluatedKey));
      assert pages[..i + 2] == pages[..i + 1] + [pages[i + 1]];
      FlattenSnoc(pages[..i + 1], pages[i + 1]);
      items := items + response.items;
      i := i + 1;
    }
    assert pages[..i + 1] == pages;
    WalkUniqueAll(backend, first, fuel);
  }

  /** `WalkUnique` for every amount of fuel at once. */
  lemma WalkUniqueAll(backend: Request -> Page, request: Request, fuel: nat)
    requires Drains(backend, request, fuel)
    ensures forall f: nat :: Drains(backend, request, f) ==> Walk(backend, request, f) == Walk(backend, request, fuel)
  {
    forall f: nat | Drains(backend, request, f)
      ensures Walk(backend, request, f) == Walk(backend, request, fuel)
    {
      WalkUnique(backend, request, f, fuel);
    }
  }

  lemma FlattenSnoc(pages: seq<Page>, page: Page)
    ensures Flatten(pages + [page]) == Flatten(pages) + page.items
  {
    assert (pages + [page])[..|pages|] == pages;
  }

  /** A table that only returns items satisfying the request's filter makes
      every collected item satisfy the filter expression. */
  lemma FetchedItemsSatisfyFilter(backend: Request -> Page, request: Request, fuel: nat, item: Item)
    requires Drains(backend, request, fuel)
    requires forall q: Request, it: Item :: it in backend(q).items ==> EvalOpt(q.filter, it)
    requires item in Flatten(Walk(backend, request, fuel))
    ensures EvalOpt(request.filter, item)
  {
    var pages := Walk(backend, request, fuel);
    WalkFollowsCursors(backend, request, fuel);
    FlattenMember(pages, item);
    var k :| 0 <= k < |pages| && item in pages[k].items;
    if k > 0 {
      assert pages[k] == backend(request.(exclusiveStartKey := pages[k - 1].lastEvaluatedKey));
    }
  }

  /** With a table that honours the filter it is given, every message
      `get_messages` collects was sent by one of the senders (when any) and
      lies within the requested time bounds (when given). */
  lemma CollectedMessagesMatchQuery(backend: Request -> Page, hashKey: string,
                                    sender: Option<seq<string>>, from: Option<int>, to: Option<int>,
                                    fuel: nat, item: Item)
    requires Drains(backend, PageRequest(hashKey, MessagesFilter(sender, from, to), None), fuel)
    requires forall q: Request, it: Item :: it in backend(q).items ==> EvalOpt(q.filter, it)
    requires item in Flatten(Walk(backend, PageRequest(hashKey, MessagesFilter(sender, from, to), None), fuel))
    ensures sender.Some? && sender.value != [] ==> SentByOneOf(item, sender.value)
    ensures IntTruthy(from) ==> HasTimestamp(item) && item[CreatedAtTimestamp].n >= from.value
    ensures IntTruthy(to) ==> HasTimestamp(item) && item[CreatedAtTimestamp].n <= to.value
  {
    FetchedItemsSatisfyFilter(backend, PageRequest(hashKey, MessagesFilter(sender, from, to), None), fuel, item);
    MessagesFilterSemantics(sender, from, to, item);
  }

  // ---------------------------------------------------------------------
  // Refresh tokens

  /** The query on the user-providers table: the user's Gmail rows, through
      the `email_hash-provider-index` index. */
  datatype ProviderQuery = ProviderQuery(emailHash: string, provider: string, indexName: string)

  function GmailProviderQuery(hashKey: string): ProviderQuery
  {
    ProviderQuery(hashKey, "GMAIL", "email_hash-provider-index")
  }

  /** `json.loads(item["auth_details"])["refresh_token"]`. */
  function RowToken(row: Item, parse: string -> Option<Json>): (r: Result<Json>)
    ensures "auth_details" !in row ==> r == Err(KeyError("auth_details"))
    ensures r.Ok? <==> "auth_details" in row && row["auth_details"].JStr?
                       && parse(row["auth_details"].s).Some? && parse(row["auth_details"].s).value.JObj?
                       && "refresh_token" in parse(row["auth_details"].s).value.fields
    ensures r.Ok? ==> r.value == parse(row["auth_details"].s).value.fields["refresh_token"]
  {
    if "auth_details" !in row then Err(KeyError("auth_details"))
    else
      match row["auth_details"]
      case JStr(text) =>
        (match parse(text)
         case None => Err(ValueError)
         case Some(JObj(details)) =>
           if "refresh_token" in details then Ok(details["refresh_token"]) else Err(KeyError("refresh_token"))
         case Some(_) => Err(TypeError))
      case _ => Err(TypeError)
  }

  /** The list comprehension over the rows: one token per row, in row order;
      the first row whose token cannot be read raises. */
  function RefreshTokens(rows: seq<Item>, parse: string -> Option<Json>): (r: Result<seq<Json>>)
    ensures r.Ok? <==> forall i :: 0 <= i < |rows| ==> RowToken(rows[i], parse).Ok?
    ensures r.Ok? ==> (|r.value| == |rows|
                       && forall i :: 0 <= i < |rows| ==> r.value[i] == RowToken(rows[i], parse).value)
    ensures r.Err? ==> (exists i :: 0 <= i < |rows| && RowToken(rows[i], parse) == Err(r.error)
                                   && forall j :: 0 <= j < i ==> RowToken(rows[j], parse).Ok?)
  {
    if rows == [] then Ok([])
    else
      var token :- RowToken(rows[0], parse);
      var rest :- RefreshTokens(rows[1..], parse);
      Ok([token] + rest)
  }

  /** `refresh_tokens if len(refresh_tokens) > 1 else refresh_tokens[0] if
      refresh_tokens else None`. */
  datatype RefreshTokenResult = NoToken | OneToken(token: Json) | TokenList(tokens: seq<Json>)

  function ShapeTokens(tokens: seq<Json>): (r: RefreshTokenResult)
    ensures r.NoToken? <==> tokens == []
    ensures r.OneToken? <==> |tokens| == 1
    ensures r.OneToken? ==> r.token == tokens[0]
    ensures r.TokenList? ==> r.tokens == tokens
  {
    if |tokens| > 1 then TokenList(tokens) else if tokens != [] then OneToken(tokens[0]) else NoToken
  }

  /** The tokens a shaped result stands for. */
  function TokensOf(r: RefreshTokenResult): seq<Json>
  {
    match r
    case NoToken => []
    case OneToken(t) => [t]
    case TokenList(ts) => ts
  }

  /** Shaping loses nothing: the tokens can be read back, in order. */
  lemma ShapeTokensRoundTrip(tokens: seq<Json>)
    ensures TokensOf(ShapeTokens(tokens)) == tokens
  {
  }

  /** `DynamoDbClient.get_refresh_token`. */
  function GetRefreshToken(query: ProviderQuery -> seq<Item>, hashKey: string, parse: string -> Option<Json>)
    : (r: Result<RefreshTokenResult>)
    ensures r.Ok? <==> RefreshTokens(query(GmailProviderQuery(hashKey)), parse).Ok?
    ensures r.Ok? ==> TokensOf(r.value) == RefreshTokens(query(GmailProviderQuery(hashKey)), parse).value
    ensures r.Ok? ==> (r.value.NoToken? <==> query(GmailProviderQuery(hashKey)) == [])
    ensures r.Ok? ==> (r.value.OneToken? <==> |query(GmailProviderQuery(hashKey))| == 1)
    ensures r.Ok? ==> (r.value.TokenList? <==> |query(GmailProviderQuery(hashKey))| > 1)
  {
    var tokens :- RefreshTokens(query(GmailProviderQuery(hashKey)), parse);
    ShapeTokensRoundTrip(tokens);
    Ok(ShapeTokens(tokens))
  }

  // ---------------------------------------------------------------------
  // Single messages

  datatype MessageKey = MessageKey(emailHash: string, messageId: string)

  /** The attributes `get_message_item` asks for. */
  const Projection: set<string> :=
    {"message_body", "message_from", "message_to", "message_subject", "created_at_timestamp"}

  /** `DynamoDbClient.get_message_item`: the stored item, cut down to the
      projected attributes, or nothing when no item has that key. */
  function GetMessageItem(table: map<MessageKey, Item>, emailHash: string, messageId: string): (r: Option<Item>)
    ensures r.Some? <==> MessageKey(emailHash, messageId) in table
    ensures r.Some? ==>
      r.value.Keys == table[MessageKey(emailHash, messageId)].Keys * Projection
      && forall a :: a in r.value ==> r.value[a] == table[MessageKey(emailHash, messageId)][a]
  {
    var key := MessageKey(emailHash, messageId);
    if key in table then Some(map a | a in table[key] && a in Projection :: table[key][a]) else None
  }
}
