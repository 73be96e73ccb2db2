/**
 * The Brave Search proxy: `GET /` and `POST /search`. A search passes the
 * access gate, needs `BRAVE_API_KEY`, sends one upstream request, and
 * reshapes the decoded upstream JSON into a `SearchResponse`. The HTTP call
 * itself is a parameter: the model states which request goes out and what
 * becomes of each possible reply.
 */
module SearchServer {
  import opened Wrappers
  import opened Http
  import opened Json
  import opened PyInt
  import AccessGate

  /** The settings read at startup: `MCP_API_KEY` and `BRAVE_API_KEY`. */
  datatype Config = Config(apiKey: Option<string>, braveApiKey: Option<string>)

  /** `SearchRequest` after validation; None where the client sent `null`. */
  datatype SearchRequest = SearchRequest(
    query: string, count: Option<int>, offset: Option<int>, country: Option<string>, searchLang: Option<string>)

  datatype SearchResult = SearchResult(title: string, url: string, description: string, publishedDate: Option<string>)

  datatype SearchResponse = SearchResponse(results: seq<SearchResult>, totalCount: int, nextOffset: Option<int>)

  /** The upstream request: its query parameters and the `X-Subscription-Token` header. */
  datatype BraveCall = BraveCall(
    q: string, count: Option<int>, offset: Option<int>, country: Option<string>, searchLang: Option<string>,
    token: string)

  /** What the upstream call gives back: no reply at all, or a status, its text, and its body as JSON if it is JSON. */
  datatype Upstream = Unreachable | Reply(statusCode: int, text: string, body: Option<Json>)

  const ApiKeyMissing := "Brave Search API key not configured. Please set BRAVE_API_KEY in .env file."

  /** `GET /`. */
  function ReadRoot(cfg: Config, header: Option<string>): (r: Result<string, HttpException>)
    ensures r.Success? <==> AccessGate.Unset(cfg.apiKey) || header == cfg.apiKey
    ensures r.Success? ==> r.value == "Brave Search MCP server is running"
    ensures r.Failure? ==> r.error == HttpException(403, Message("Invalid API key"))
  {
    match AccessGate.GetApiKey(cfg.apiKey, header)
    case Failure(e) => Failure(e)
    case Success(_) => Success("Brave Search MCP server is running")
  }

  // ---------------------------------------------------------------------------
  // The request

  /** The request body as validated, with the defaults of `SearchRequest` for the fields left out. */
  function MakeSearchRequest(query: string, count: Field<int>, offset: Field<int>, country: Field<string>,
                             searchLang: Field<string>): (r: SearchRequest)
    ensures r.query == query
  {
    SearchRequest(query, WithDefault(count, 10), WithDefault(offset, 0), WithDefault(country, "US"),
                  WithDefault(searchLang, "en"))
  }

  /** A request that gives only the query asks for ten results from offset zero, in English, from the US. */
  lemma SearchDefaults(query: string)
    ensures MakeSearchRequest(query, Absent, Absent, Absent, Absent) == SearchRequest(query, Some(10), Some(0), Some("US"), Some("en"))
  {
  }

  /** `get_brave_api_key`. */
  function GetBraveApiKey(braveApiKey: Option<string>): (r: Result<string, HttpException>)
    ensures r.Success? <==> !AccessGate.Unset(braveApiKey)
    ensures r.Success? ==> Some(r.value) == braveApiKey
    ensures r.Failure? ==> r.error == HttpException(500, Message(ApiKeyMissing))
  {
    if braveApiKey.None? || braveApiKey.value == "" then Failure(HttpException(500, Message(ApiKeyMissing)))
    else Success(braveApiKey.value)
  }

  /** The upstream request `search` builds: the request's fields as parameters, the key as token. */
  function CallFor(req: SearchRequest, key: string): BraveCall
  {
    BraveCall(req.query, req.count, req.offset, req.country, req.searchLang, key)
  }

  // ---------------------------------------------------------------------------
  // Reshaping the upstream JSON

  /** `v.get(key, default)`: only a dict has `.get`. */
  function Get(v: Json, key: string, default: Json): Result<Json, Cause>
  {
    match v
    case JObj(m) => Success(if key in m then m[key] else default)
    case _ => Failure(AttributeError)
  }

  /**
   * What `for item in v` goes through. A list gives its items. A string or an
   * object gives strings (its characters, its keys), which fail at
   * `item.get`, so only an empty one gets through. A number, a bool or
   * `null` cannot be iterated.
   */
  function Iterate(v: Json): (r: Result<seq<Json>, Cause>)
    ensures r.Success? <==> v.JArr? || v == JStr("") || v == JObj(map[])
    ensures v.JArr? ==> r == Success(v.items)
    ensures r.Success? && !v.JArr? ==> r.value == []
    ensures v.JNum? || v.JBool? || v.JNull? ==> r == Failure(TypeError)
    ensures (v.JStr? && v.s != "") || (v.JObj? && v.fields != map[]) ==> r == Failure(AttributeError)
  {
    match v
    case JArr(items) => Success(items)
    case JStr(s) => if s == "" then Success([]) else Failure(AttributeError)
    case JObj(m) => if m == map[] then Success([]) else Failure(AttributeError)
    case _ => Failure(TypeError)
  }

  /**
   * What pydantic (version 1) makes of a value given for a `str` field: a
   * string is kept, an integer or a bool becomes its `str()` (a bool is an
   * `int` to Python); anything else, `null` included, is refused.
   */
  function StrValue(v: Json): (r: Option<string>)
    ensures r.Some? <==> v.JStr? || v.JNum? || v.JBool?
    ensures v.JStr? ==> r == Some(v.s)
    ensures v.JNum? ==> ParseDecimal(r.value) == Some(v.n)
    ensures v.JBool? ==> r == Some(if v.b then "True" else "False")
  {
    match v
    case JStr(s) => Some(s)
    case JNum(n) => DecimalRoundTrip(n); Some(Decimal(n))
    case JBool(b) => Some(if b then "True" else "False")
    case _ => None
  }

  /** `item.get(key, "")` for an item that is an object. */
  function StrField(m: map<string, Json>, key: string): Json
  {
    if key in m then m[key] else JStr("")
  }

  /** `item.get("published_date")`: `null` when the key is missing. */
  function DateField(m: map<string, Json>): Json
  {
    if "published_date" in m then m["published_date"] else JNull
  }

  /**
   * One item of `web.results` made into a `SearchResult`: it must be an
   * object; a missing title, url or description reads as "", a missing or
   * `null` published_date as None; each other value goes through pydantic's
   * `str` validation.
   */
  function ItemResult(item: Json): (r: Result<SearchResult, Cause>)
    ensures !item.JObj? ==> r == Failure(AttributeError)
    ensures item.JObj? ==>
              var m := item.fields;
              (r.Success? <==> StrValue(StrField(m, "title")).Some? && StrValue(StrField(m, "url")).Some? &&
                               StrValue(StrField(m, "description")).Some? &&
                               (DateField(m).JNull? || StrValue(DateField(m)).Some?)) &&
              (r.Failure? ==> r.error == ValidationError)
    ensures r.Success? ==>
              var m := item.fields;
              && r.value.title == StrValue(StrField(m, "title")).value
              && r.value.url == StrValue(StrField(m, "url")).value
              && r.value.description == StrValue(StrField(m, "description")).value
              && (r.value.publishedDate.None? <==> DateField(m).JNull?)
              && (r.value.publishedDate.Some? ==> r.value.publishedDate == StrValue(DateField(m)))
  {
    match item
    case JObj(m) =>
      var title, url, description := StrValue(StrField(m, "title")), StrValue(StrField(m, "url")), StrValue(StrField(m, "description"));
      var pd := DateField(m);
      if title.Some? && url.Some? && description.Some? && (pd.JNull? || StrValue(pd).Some?) then
        Success(SearchResult(title.value, url.value, description.value, if pd.JNull? then None else StrValue(pd)))
      else Failure(ValidationError)
    case _ => Failure(AttributeError)
  }

  /** The results list built from `items` in order, or the first item's failure. */
  function MapResults(items: seq<Json>): Result<seq<SearchResult>, Cause>
  {
    if items == [] then Success([])
    else match ItemResult(items[0])
      case Failure(e) => Failure(e)
      case Success(x) =>
        match MapResults(items[1..])
        case Failure(e) => Failure(e)
        case Success(xs) => Success([x] + xs)
  }

  /**
   * Exactly one result per item, in the same order, when every item shapes;
   * otherwise the failure of the first item that does not.
   */
  lemma {:induction false} MapResultsOk(items: seq<Json>)
    ensures MapResults(items).Success? <==> forall i :: 0 <= i < |items| ==> ItemResult(items[i]).Success?
    ensures MapResults(items).Success? ==>
              |MapResults(items).value| == |items| &&
              forall i :: 0 <= i < |items| ==> MapResults(items).value[i] == ItemResult(items[i]).value
  {
    if items != [] {
      MapResultsOk(items[1..]);
      if ItemResult(items[0]).Success? && MapResults(items[1..]).Success? {
        var xs := MapResults(items).value;
        forall i | 0 <= i < |items| ensures xs[i] == ItemResult(items[i]).value {
          if i > 0 { assert items[1..][i - 1] == items[i]; }
        }
      }
      if ItemResult(items[0]).Success? && MapResults(items[1..]).Failure? {
        var j :| 0 <= j < |items[1..]| && ItemResult(items[1..][j]).Failure?;
        assert items[1..][j] == items[j + 1];
      }
    }
  }

  lemma {:induction false} MapResultsFirstFailure(items: seq<Json>, k: nat)
    requires k < |items| && ItemResult(items[k]).Failure?
    requires forall i :: 0 <= i < k ==> ItemResult(items[i]).Success?
    ensures MapResults(items) == Failure(ItemResult(items[k]).error)
  {
    if k > 0 {
      forall i | 0 <= i < k - 1 ensures ItemResult(items[1..][i]).Success? {
        assert items[1..][i] == items[i + 1];
      }
      MapResultsFirstFailure(items[1..], k - 1);
    }
  }

  /** The loop of `search` that appends one `SearchResult` per item. */
  method ShapeResults(items: seq<Json>) returns (r: Result<seq<SearchResult>, Cause>)
    ensures r == MapResults(items)
  {
    var results: seq<SearchResult> := [];
    for i := 0 to |items|
      invariant |results| == i
      invariant forall k :: 0 <= k < i ==> ItemResult(items[k]).Success? && results[k] == ItemResult(items[k]).value
    {
      var result := ItemResult(items[i]);
      if result.Failure? {
        MapResultsFirstFailure(items, i);
        return Failure(result.error);
      }
      results := results + [result.value];
    }
    MapResultsOk(items);
    assert results == MapResults(items).value;
    return Success(results);
  }

  /**
   * `total_count` as `<` sees it and as pydantic's `int` field takes it: an
   * integer, or a bool as 0 or 1; anything else cannot be compared with an int.
   */
  function AsInt(v: Json): Result<int, Cause>
  {
    match v
    case JNum(n) => Success(n)
    case JBool(b) => Success(if b then 1 else 0)
    case _ => Failure(TypeError)
  }

  /** The `next_offset` rule: the next page's offset when it starts before the total, else None. */
  function NextOffset(offset: int, count: int, total: int): (r: Option<int>)
    ensures r.Some? <==> offset + count < total
    ensures r.Some? ==> r.value == offset + count && r.value < total
  {
    if offset + count < total then Some(offset + count) else None
  }

  /** The response `search` builds from the upstream JSON `data`, or the exception it raises. */
  function ShapeResponse(req: SearchRequest, data: Json): Result<SearchResponse, Cause>
  {
    match Get(data, "web", JObj(map[]))
    case Failure(e) => Failure(e)
    case Success(web) =>
      match Get(web, "results", JArr([]))
      case Failure(e) => Failure(e)
      case Success(raw) =>
        match Iterate(raw)
        case Failure(e) => Failure(e)
        case Success(items) =>
          match MapResults(items)
          case Failure(e) => Failure(e)
          case Success(results) =>
            var total := if "total_results" in web.fields then web.fields["total_results"] else JNum(0);
            if req.offset.None? || req.count.None? then Failure(TypeError)
            else match AsInt(total)
              case Failure(e) => Failure(e)
              case Success(t) => Success(SearchResponse(results, t, NextOffset(req.offset.value, req.count.value, t)))
  }

  /** What becomes of an upstream reply. */
  function Outcome(req: SearchRequest, up: Upstream): Result<SearchResponse, HttpException>
  {
    match up
    case Unreachable => Failure(Internal(TransportError))
    case Reply(status, text, body) =>
      if status != 200 then Failure(HttpException(status, Message("Brave Search API error: " + text)))
      else match body
        case None => Failure(Internal(JsonDecodeError))
        case Some(data) =>
          match ShapeResponse(req, data)
          case Failure(e) => Failure(Internal(e))
          case Success(resp) => Success(resp)
  }

  /**
   * `POST /search`, with `fetch` standing for the upstream call. `sent` is
   * the upstream request made, if any: none when the gate refuses or the
   * upstream key is not configured.
   */
  method Search(cfg: Config, header: Option<string>, req: SearchRequest, fetch: BraveCall -> Upstream)
    returns (r: Result<SearchResponse, HttpException>, sent: Option<BraveCall>)
    ensures var gate := AccessGate.GetApiKey(cfg.apiKey, header);
            var key := GetBraveApiKey(cfg.braveApiKey);
            if gate.Failure? then r == Failure(gate.error) && sent == None
            else if key.Failure? then r == Failure(key.error) && sent == None
            else sent == Some(CallFor(req, key.value)) && r == Outcome(req, fetch(sent.value))
  {
    var gate := AccessGate.GetApiKey(cfg.apiKey, header);
    if gate.Failure? {
      return Failure(gate.error), None;
    }
    var key := GetBraveApiKey(cfg.braveApiKey);
    if key.Failure? {
      return Failure(key.error), None;
    }
    var call := CallFor(req, key.value);
    sent := Some(call);
    var response := fetch(call);
    if response.Unreachable? {
      return Failure(Internal(TransportError)), sent;
    }
    if response.statusCode != 200 {
      return Failure(HttpException(response.statusCode, Message("Brave Search API error: " + response.text))), sent;
    }
    if response.body.None? {
      return Failure(Internal(JsonDecodeError)), sent;
    }
    var data := response.body.value;
    var web := Get(data, "web", JObj(map[]));
    if web.Failure? {
      return Failure(Internal(web.error)), sent;
    }
    var raw := Get(web.value, "results", JArr([]));
    if raw.Failure? {
      return Failure(Internal(raw.error)), sent;
    }
    var items := Iterate(raw.value);
    if items.Failure? {
      return Failure(Internal(items.error)), sent;
    }
    var results := ShapeResults(items.value);
    if results.Failure? {
      return Failure(Internal(results.error)), sent;
    }
    var totalCount := if "total_results" in web.value.fields then web.value.fields["total_results"] else JNum(0);
    if req.offset.None? || req.count.None? {
      return Failure(Internal(TypeError)), sent;
    }
    var total := AsInt(totalCount);
    if total.Failure? {
      return Failure(Internal(total.error)), sent;
    }
    var nextOffset := NextOffset(req.offset.value, req.count.value, total.value);
    return Success(SearchResponse(results.value, total.value, nextOffset)), sent;
  }

  // ---------------------------------------------------------------------------
  // What the proxy promises

  /** A reply with a status other than 200 is an error with that same status, whatever its body. */
  lemma UpstreamErrorPassesThrough(req: SearchRequest, status: int, text: string, body: Option<Json>)
    requires status != 200
    ensures Outcome(req, Reply(status, text, body)).Failure?
    ensures Outcome(req, Reply(status, text, body)).error == HttpException(status, Message("Brave Search API error: " + text))
  {
  }

  /** Every failure other than an upstream status is a 500. */
  lemma OtherFailuresAre500(req: SearchRequest, up: Upstream)
    requires up.Unreachable? || up.statusCode == 200
    ensures Outcome(req, up).Failure? ==> Outcome(req, up).error.statusCode == 500
  {
  }

  /**
   * A successful response has one result per item of `web.results`, in
   * order, `total_count` read from `web.total_results` (0 when absent), and
   * the pagination rule applied to it.
   */
  lemma ResponseShape(req: SearchRequest, data: Json)
    requires ShapeResponse(req, data).Success?
    ensures data.JObj?
    ensures var web := if "web" in data.fields then data.fields["web"] else JObj(map[]);
            var raw := if "results" in web.fields then web.fields["results"] else JArr([]);
            var items := Iterate(raw).value;
            var resp := ShapeResponse(req, data).value;
            && |resp.results| == |items|
            && (forall i :: 0 <= i < |items| ==> ItemResult(items[i]).Success? && resp.results[i] == ItemResult(items[i]).value)
            && resp.totalCount == AsInt(if "total_results" in web.fields then web.fields["total_results"] else JNum(0)).value
            && resp.nextOffset == NextOffset(req.offset.value, req.count.value, resp.totalCount)
            && (resp.nextOffset.Some? ==> resp.nextOffset.value < resp.totalCount)
  {
    var web := Get(data, "web", JObj(map[])).value;
    var raw := Get(web, "results", JArr([])).value;
    MapResultsOk(Iterate(raw).value);
  }

  /** Without `web`, or without `web.results`, there are no results and `total_count` is 0 unless given. */
  lemma MissingResultsEmpty(req: SearchRequest, data: Json)
    requires data.JObj? && req.offset.Some? && req.count.Some?
    requires "web" !in data.fields || (data.fields["web"].JObj? && "results" !in data.fields["web"].fields)
    ensures var web := if "web" in data.fields then data.fields["web"] else JObj(map[]);
            ShapeResponse(req, data).Success? <==> AsInt(if "total_results" in web.fields then web.fields["total_results"] else JNum(0)).Success?
    ensures ShapeResponse(req, data).Success? ==> ShapeResponse(req, data).value.results == []
    ensures "web" !in data.fields ==>
              ShapeResponse(req, data) == Success(SearchResponse([], 0, NextOffset(req.offset.value, req.count.value, 0)))
  {
  }

  /** An item without any of the four keys becomes an empty result. */
  lemma ItemDefaults()
    ensures ItemResult(JObj(map[])) == Success(SearchResult("", "", "", None))
  {
  }

  /** A number or a bool given for a text field is kept as its Python text: `7` as "7", `true` as "True". */
  lemma ItemCoercion(n: int, b: bool)
    ensures ItemResult(JObj(map["title" := JNum(n), "url" := JBool(b)])) ==
            Success(SearchResult(Decimal(n), if b then "True" else "False", "", None))
  {
  }

  /** A `null`, a list or an object given for a text field is a validation error. */
  lemma ItemRefused(key: string, v: Json)
    requires key == "title" || key == "url" || key == "description"
    requires v.JNull? || v.JArr? || v.JObj?
    ensures ItemResult(JObj(map[key := v])) == Failure(ValidationError)
  {
  }

  /** Sending the defaults explicitly gives the same request as leaving the fields out. */
  lemma ExplicitDefaultsSame(query: string)
    ensures MakeSearchRequest(query, Given(10), Given(0), Given("US"), Given("en")) ==
            MakeSearchRequest(query, Absent, Absent, Absent, Absent)
  {
  }

  /**
   * A `null` count or offset cannot be added: the response always fails, and
   * when the body has no `web` the failure is that `TypeError`.
   */
  lemma NullPageFails(req: SearchRequest, data: Json)
    requires req.offset.None? || req.count.None?
    ensures ShapeResponse(req, data).Failure?
    ensures data.JObj? && "web" !in data.fields ==> ShapeResponse(req, data) == Failure(TypeError)
  {
  }

  /**
   * How a body of the wrong shape fails: `.get` on something that is not an
   * object is an `AttributeError`, a `web.results` that is a number, a bool
   * or `null` cannot be iterated, and a non-empty string or object in its
   * place yields items without `.get`.
   */
  lemma MalformedBody(req: SearchRequest, data: Json)
    ensures !data.JObj? ==> ShapeResponse(req, data) == Failure(AttributeError)
    ensures data.JObj? && "web" in data.fields && !data.fields["web"].JObj? ==>
              ShapeResponse(req, data) == Failure(AttributeError)
    ensures data.JObj? && "web" in data.fields && data.fields["web"].JObj? && "results" in data.fields["web"].fields ==>
              var raw := data.fields["web"].fields["results"];
              && (raw.JNum? || raw.JBool? || raw.JNull? ==> ShapeResponse(req, data) == Failure(TypeError))
              && ((raw.JStr? && raw.s != "") || (raw.JObj? && raw.fields != map[]) ==>
                    ShapeResponse(req, data) == Failure(AttributeError))
  {
  }

  /**
   * `total_count` is compared with `offset + count` before pydantic sees it.
   * Once the results shape, the response exists iff `web.total_results` is
   * absent, an integer or a bool, and its total is then that integer, 0 or 1
   * for the bool, or 0 when absent; any other value is a `TypeError`.
   */
  lemma TotalCountCases(req: SearchRequest, data: Json)
    requires data.JObj? && req.offset.Some? && req.count.Some?
    requires "web" in data.fields && data.fields["web"].JObj?
    requires var web := data.fields["web"].fields;
             "results" in web && web["results"].JArr? && MapResults(web["results"].items).Success?
    ensures var web := data.fields["web"].fields;
            var total := if "total_results" in web then web["total_results"] else JNum(0);
            && (ShapeResponse(req, data).Success? <==> total.JNum? || total.JBool?)
            && (ShapeResponse(req, data).Failure? ==> ShapeResponse(req, data).error == TypeError)
            && (total.JNum? ==> ShapeResponse(req, data).value.totalCount == total.n)
            && (total.JBool? ==> ShapeResponse(req, data).value.totalCount == if total.b then 1 else 0)
  {
  }
}
