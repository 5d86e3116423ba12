/** The POST handler of app/api/recommend-simple/route.ts: rate-limit gate,
    body validation, dataset existence, user lookup, then the top-K prefix.
    The request body, the file system and `JSON.parse` are inputs here. */
module RecommendSimple {
  import opened Wrappers
  import opened JsString
  import opened RateLimiter

  /** One stored recommendation, as the precompute script writes it. */
  datatype Record = Record(itemId: int, score: real)

  /** What a user key holds in a parsed dataset: `null` or a list. */
  datatype Stored = Null | Records(items: seq<Record>)

  /** A dataset file on disk: reading or `JSON.parse` threw, or the parsed
      object with its keys read as user ids. */
  datatype DatasetFile = Unparsable(message: string) | Parsed(users: map<int, Stored>)

  /** The request body: `request.json()` threw, or the three fields the
      handler destructures. `dataType` is `None` when absent, `userId` is
      `None` when it is not a number, `topK` is `None` when absent. */
  datatype Body =
    | Unreadable(message: string)
    | Fields(dataType: Option<string>, userId: Option<int>, topK: Option<int>)

  datatype Response =
    | TooManyRequests(retryAfter: string)
    | BadRequest(error: string)
    | NotFound(error: string)
    | Recommendations(recommendations: seq<Record>, userId: int)
    | ServerError(error: string)

  function Status(r: Response): int {
    match r
    case TooManyRequests(_) => 429
    case BadRequest(_) => 400
    case NotFound(_) => 404
    case Recommendations(_, _) => 200
    case ServerError(_) => 500
  }

  /** The route's limiter: 20 requests per minute. */
  const RouteConfig := Config(Some(60 * 1000), Some(20))
  const DefaultTopK := 10

  const DatasetFileSuffix := "_recommendations.json"
  const DatasetMissingText := "Pre-computed recommendations not found. Run: python scripts/precompute_recommendations.py --data-type "
  const InvalidRequestText := "Invalid request. dataType and userId required."
  const InternalErrorText := "Internal server error"

  /** The file name the handler looks for under `public/recommendations`. */
  function DatasetFileName(dataType: string): string {
    dataType + DatasetFileSuffix
  }

  /** The 404 message for a missing dataset file. */
  function DatasetMissingMessage(dataType: string): string {
    DatasetMissingText + dataType
  }

  /** The 404 message for a user the dataset does not hold. */
  function UserMissingMessage(userId: int): string {
    "User " + IntToDecimal(userId) + " not found"
  }

  /** Distinct data types are looked up in distinct files. */
  lemma DatasetFileNameInjective(a: string, b: string)
    requires DatasetFileName(a) == DatasetFileName(b)
    ensures a == b
  {
    assert a == DatasetFileName(a)[..|DatasetFileName(a)| - |DatasetFileSuffix|];
    assert b == DatasetFileName(b)[..|DatasetFileName(b)| - |DatasetFileSuffix|];
  }

  /** The dataset message names the data type: distinct types give distinct messages. */
  lemma DatasetMissingMessageInjective(a: string, b: string)
    requires DatasetMissingMessage(a) == DatasetMissingMessage(b)
    ensures a == b
  {
    assert a == DatasetMissingMessage(a)[|DatasetMissingText|..];
    assert b == DatasetMissingMessage(b)[|DatasetMissingText|..];
  }

  /** The user message names the user: distinct ids give distinct messages. */
  lemma UserMissingMessageInjective(a: int, b: int)
    requires UserMissingMessage(a) == UserMissingMessage(b)
    ensures a == b
  {
    var m := UserMissingMessage(a);
    assert IntToDecimal(a) == m[5..|m| - 10];
    assert IntToDecimal(b) == m[5..|m| - 10];
    ParseIntOfToString(a);
    ParseIntOfToString(b);
  }

  /** The `Retry-After` header: `retryAfter?.toString() || '60'`. */
  function RetryAfterHeader(retryAfter: Option<int>): (r: string)
    ensures r != []
  {
    match retryAfter
    case Some(s) => IntToDecimal(s)
    case None => "60"
  }

  /** `error.message || 'Internal server error'`. */
  function ServerErrorMessage(message: string): (r: string)
    ensures r != []
    ensures message != [] ==> r == message
  {
    if message == [] then InternalErrorText else message
  }

  /** The end index `list.slice(0, k)` stops at on a list of length `n`:
      a negative `k` counts back from the end. */
  function SliceEnd(n: nat, k: int): (e: nat)
    ensures e <= n
  {
    if k < 0 then (if n + k < 0 then 0 else n + k) else if k < n then k else n
  }

  /** The handler after the limiter has decided. */
  function Respond(decision: Decision, body: Body, files: map<string, DatasetFile>): (r: Response)
    ensures r.TooManyRequests? <==> !decision.allowed
    ensures !decision.allowed ==> r == TooManyRequests(RetryAfterHeader(decision.retryAfter))
    ensures decision.allowed && body.Unreadable? ==> r == ServerError(ServerErrorMessage(body.message))
    ensures decision.allowed && body.Fields? && (!Truthy(body.dataType) || body.userId.None?) ==> r.BadRequest?
    ensures r.Recommendations? ==>
      && body.Fields? && body.userId == Some(r.userId) && Truthy(body.dataType)
      && DatasetFileName(body.dataType.value) in files
      && files[DatasetFileName(body.dataType.value)].Parsed?
      && var users := files[DatasetFileName(body.dataType.value)].users;
         r.userId in users && users[r.userId].Records?
         && |r.recommendations| <= |users[r.userId].items|
         && r.recommendations == users[r.userId].items[..|r.recommendations|]
  {
    if !decision.allowed then TooManyRequests(RetryAfterHeader(decision.retryAfter))
    else match body
      case Unreadable(message) => ServerError(ServerErrorMessage(message))
      case Fields(dataType, userId, topK) =>
        if !Truthy(dataType) || userId.None? then
          BadRequest(InvalidRequestText)
        else
          var name := DatasetFileName(dataType.value);
          if name !in files then NotFound(DatasetMissingMessage(dataType.value))
          else match files[name]
            case Unparsable(message) => ServerError(ServerErrorMessage(message))
            case Parsed(users) =>
              if userId.value !in users || users[userId.value].Null? then
                NotFound(UserMissingMessage(userId.value))
              else
                var items := users[userId.value].items;
                Recommendations(items[..SliceEnd(|items|, topK.GetOr(DefaultTopK))], userId.value)
  }

  /** A refused call is answered 429 whatever the body and the files are. */
  lemma RefusedBeforeBodyIsRead(decision: Decision, body1: Body, files1: map<string, DatasetFile>, body2: Body, files2: map<string, DatasetFile>)
    requires !decision.allowed
    ensures Status(Respond(decision, body1, files1)) == 429
    ensures Respond(decision, body1, files1) == Respond(decision, body2, files2)
  {
  }

  /** The limiter's own refusals carry their hint, which reads back as a number. */
  lemma RetryAfterHeaderReadsBack(seconds: int)
    ensures ParseInt10(RetryAfterHeader(Some(seconds))) == Some(seconds)
  {
    ParseIntOfToString(seconds);
  }

  /** A falsy `dataType` or a non-numeric `userId` is 400 and no file is consulted. */
  lemma InvalidBodyIgnoresFiles(decision: Decision, body: Body, files1: map<string, DatasetFile>, files2: map<string, DatasetFile>)
    requires decision.allowed && body.Fields? && (!Truthy(body.dataType) || body.userId.None?)
    ensures Status(Respond(decision, body, files1)) == 400
    ensures Respond(decision, body, files1) == Respond(decision, body, files2)
  {
  }

  /** No file for the data type: 404. */
  lemma MissingDatasetNotFound(decision: Decision, dataType: string, userId: int, topK: Option<int>, files: map<string, DatasetFile>)
    requires decision.allowed && dataType != [] && DatasetFileName(dataType) !in files
    ensures Status(Respond(decision, Fields(Some(dataType), Some(userId), topK), files)) == 404
  {
  }

  /** A dataset file that cannot be read or parsed: 500 with the exception's
      message, or the generic one when that message is empty. */
  lemma UnparsableDatasetServerError(decision: Decision, dataType: string, userId: int, topK: Option<int>, files: map<string, DatasetFile>, message: string)
    requires decision.allowed && dataType != []
    requires DatasetFileName(dataType) in files && files[DatasetFileName(dataType)] == Unparsable(message)
    ensures Respond(decision, Fields(Some(dataType), Some(userId), topK), files) == ServerError(ServerErrorMessage(message))
    ensures Status(Respond(decision, Fields(Some(dataType), Some(userId), topK), files)) == 500
  {
  }

  /** A user key that is absent or `null`: 404. */
  lemma MissingUserNotFound(decision: Decision, dataType: string, userId: int, topK: Option<int>, files: map<string, DatasetFile>)
    requires decision.allowed && dataType != []
    requires DatasetFileName(dataType) in files && files[DatasetFileName(dataType)].Parsed?
    requires var users := files[DatasetFileName(dataType)].users; userId !in users || users[userId].Null?
    ensures Respond(decision, Fields(Some(dataType), Some(userId), topK), files) == NotFound(UserMissingMessage(userId))
  {
  }

  /** A stored list is served as its first `min(topK, n)` records in stored
      order (10 when `topK` is absent), with the user id echoed; an empty list
      is a 200 with no records, not a 404. */
  lemma StoredListServed(decision: Decision, dataType: string, userId: int, topK: Option<int>, files: map<string, DatasetFile>, items: seq<Record>)
    requires decision.allowed && dataType != []
    requires DatasetFileName(dataType) in files && files[DatasetFileName(dataType)].Parsed?
    requires var users := files[DatasetFileName(dataType)].users; userId in users && users[userId] == Records(items)
    requires topK.None? || topK.value >= 0
    ensures var r := Respond(decision, Fields(Some(dataType), Some(userId), topK), files);
      var k := topK.GetOr(DefaultTopK);
      && Status(r) == 200 && r.userId == userId
      && |r.recommendations| == (if k < |items| then k else |items|)
      && r.recommendations == items[..|r.recommendations|]
  {
  }

  /** A negative `topK` drops that many records from the end, as `slice` does;
      dropping at least as many as there are leaves none. */
  lemma NegativeTopKDropsFromEnd(decision: Decision, dataType: string, userId: int, k: int, files: map<string, DatasetFile>, items: seq<Record>)
    requires decision.allowed && dataType != [] && k < 0
    requires DatasetFileName(dataType) in files && files[DatasetFileName(dataType)].Parsed?
    requires var users := files[DatasetFileName(dataType)].users; userId in users && users[userId] == Records(items)
    ensures Respond(decision, Fields(Some(dataType), Some(userId), Some(k)), files)
         == Recommendations(items[..if |items| + k < 0 then 0 else |items| + k], userId)
  {
  }

  /** A request naming a data type that has no file is a 404. */
  lemma UnknownDataTypeNotFound(files: map<string, DatasetFile>)
    requires "ghost_recommendations.json" !in files
    ensures Status(Respond(Decision(true, None), Fields(Some("ghost"), Some(1), Some(5)), files)) == 404
  {
    assert DatasetFileName("ghost") == "ghost_recommendations.json";
    MissingDatasetNotFound(Decision(true, None), "ghost", 1, Some(5), files);
  }

  /** The route module: its limiter, whose table every limiter shares. */
  class Route {
    const limiter: Limiter

    constructor (table: Table)
      ensures limiter.table == table && limiter.settings == Settings(60 * 1000, 20)
    {
      limiter := new Limiter(RouteConfig, table);
    }

    /** `POST`: identify the client, count the call (whatever the body holds),
        then answer. */
    method Post(headers: Headers, now: int, body: Body, files: map<string, DatasetFile>) returns (r: Response)
      modifies limiter.table
      ensures var o := Step(old(limiter.table.entries), ClientIdentifier(headers), now, limiter.settings.windowMs, limiter.settings.maxRequests);
        limiter.table.entries == o.entries && r == Respond(o.decision, body, files)
    {
      var identifier := ClientIdentifier(headers);
      var decision := limiter.Check(identifier, now);
      r := Respond(decision, body, files);
    }
  }
}
