/**
 * The serverless handler of api/fetchContent.js: it checks the `token`
 * query parameter, forwards a valid one as a bearer token to the content
 * API, and turns the upstream result into an HTTP response.
 *
 * The upstream exchange (`node-fetch`, its 5 second timeout, `response.json()`)
 * is not executed here: its result is an input of the model.
 */
module FetchContent {
  import JsValues
  import opened Whitespace
  import opened Wrappers

  /** What `req.query.token` holds after the query string is parsed. */
  datatype QueryValue =
    | NoParam                       // no `token` parameter: `undefined`
    | Text(s: string)               // `?token=abc`
    | TextList(items: seq<string>)  // `?token=a&token=b`: an array
    | Nested(keys: seq<string>)     // `?token[k]=v`: an object

  /** A parsed JSON document. */
  datatype Json =
    | JNull
    | JBool(b: bool)
    | JNumber(n: real)
    | JString(str: string)
    | JArray(elements: seq<Json>)
    | JObject(members: map<string, Json>)

  /** How the call to the content API ended. */
  datatype Upstream =
    | Ok(body: Json)                // `response.ok`, and the body parsed as JSON
    | OkUnparsable                  // `response.ok`, but `response.json()` threw
    | NotOk(statusText: string)     // a non-2xx status
    | Threw(message: string)        // a network error or the timeout

  /** What a response carries: the JSON passed to `res.json(...)`, nothing
      (`res.json(undefined)`), or an `{ error: ... }` object. */
  datatype Body = Payload(value: Json) | NoPayload | ErrorMessage(error: string)

  datatype Response = Response(status: int, body: Body)

  /** The one upstream request the handler may issue. */
  datatype Request = Request(url: string, authorization: string)

  /** Everything the handler does for one call: the upstream request it
      sent, if any, and the response. */
  datatype Exchange = Exchange(sent: Option<Request>, response: Response)

  /** The three ways the two token checks can end. */
  datatype Validation = Missing | Malformed | Accepted(token: string)

  const TokenRequired := "Token is required"
  const InvalidTokenFormat := "Invalid token format"
  const InternalServerError := "Internal Server Error"
  const ContentPath := "/items/success_stories?filter[status][_eq]=published"

  /** `!token`: only `undefined` and the empty string are falsy; every array
      and every object, even an empty one, is truthy. */
  predicate Falsy(token: QueryValue)
  {
    token == NoParam || token == Text("")
  }

  /** The two checks, in source order: presence first, then format. */
  function Validate(token: QueryValue): (v: Validation)
    ensures v.Accepted? ==> token == Text(v.token) && v.token != ""
  {
    if Falsy(token) then Missing
    else if !token.Text? || Trim(token.s) == "" then Malformed
    else Accepted(token.s)
  }

  /** Reading `data.data`: it throws on `null`, finds a member of an object,
      and is `undefined` everywhere else. */
  datatype Lookup = Throws | Absent | Found(value: Json)

  function DataMember(body: Json): (r: Lookup)
    ensures r.Throws? <==> body == JNull
    ensures r.Found? <==> body.JObject? && "data" in body.members
    ensures r.Found? ==> r.value == body.members["data"]
  {
    match body
    case JNull => Throws
    case JObject(m) => if "data" in m then Found(m["data"]) else Absent
    case _ => Absent
  }

  /** The request for the published success stories, authorised with the
      token exactly as received. */
  function ContentRequest(endpoint: JsValues.JsValue, token: string): (r: Request)
    ensures |r.authorization| == |"Bearer "| + |token|
    ensures r.authorization[..|"Bearer "|] == "Bearer " && r.authorization[|"Bearer "|..] == token
    ensures |r.url| >= |ContentPath|
    ensures r.url[..|r.url| - |ContentPath|] == JsValues.TemplateString(endpoint)
    ensures r.url[|r.url| - |ContentPath|..] == ContentPath
  {
    Request(JsValues.TemplateString(endpoint) + ContentPath, "Bearer " + token)
  }

  /** The `try`/`catch` around the upstream call. */
  function Reply(outcome: Upstream): (r: Response)
    ensures r.status == 200 || r == Response(500, ErrorMessage(InternalServerError))
    ensures r.status == 200 <==> outcome.Ok? && outcome.body != JNull
    ensures outcome.Ok? && outcome.body.JObject? && "data" in outcome.body.members ==>
              r.body == Payload(outcome.body.members["data"])
    ensures outcome.Ok? && outcome.body != JNull && !(outcome.body.JObject? && "data" in outcome.body.members) ==>
              r.body == NoPayload
  {
    var failed := Response(500, ErrorMessage(InternalServerError));
    match outcome
    case Ok(body) =>
      (match DataMember(body)
       case Throws => failed
       case Absent => Response(200, NoPayload)
       case Found(v) => Response(200, Payload(v)))
    case _ => failed
  }

  /** The exported handler. */
  function Handle(token: QueryValue, endpoint: JsValues.JsValue, upstream: Upstream): (h: Exchange)
    ensures h.sent.Some? <==> Validate(token).Accepted?
    ensures h.sent.None? ==> h.response.status == 400
  {
    match Validate(token)
    case Missing => Exchange(None, Response(400, ErrorMessage(TokenRequired)))
    case Malformed => Exchange(None, Response(400, ErrorMessage(InvalidTokenFormat)))
    case Accepted(t) => Exchange(Some(ContentRequest(endpoint, t)), Reply(upstream))
  }

  /** A token every character of which is white space. */
  predicate Blank(s: string)
  {
    forall i :: 0 <= i < |s| ==> IsWhitespace(s[i])
  }

  // ---------------------------------------------------------------------
  // Token validation (lines 8-14)
  // ---------------------------------------------------------------------

  /** 400 "Token is required" exactly for a missing or empty token. */
  lemma MissingToken(token: QueryValue, endpoint: JsValues.JsValue, upstream: Upstream)
    ensures Validate(token) == Missing <==> token == NoParam || token == Text("")
    ensures Validate(token) == Missing ==>
              Handle(token, endpoint, upstream) == Exchange(None, Response(400, ErrorMessage(TokenRequired)))
  {
  }

  /** 400 "Invalid token format" exactly for an array, an object, or a
      non-empty string of white space; the empty string never gets here. */
  lemma MalformedToken(token: QueryValue, endpoint: JsValues.JsValue, upstream: Upstream)
    ensures Validate(token) == Malformed <==>
              token.TextList? || token.Nested? || (token.Text? && token.s != "" && Blank(token.s))
    ensures Validate(token) == Malformed ==>
              Handle(token, endpoint, upstream) == Exchange(None, Response(400, ErrorMessage(InvalidTokenFormat)))
  {
  }

  /** A token is accepted exactly when it is a string with at least one
      character that is not white space, and it is accepted unchanged. */
  lemma AcceptedToken(token: QueryValue, t: string)
    ensures Validate(token) == Accepted(t) <==> token == Text(t) && !Blank(t)
  {
  }

  /** The upstream call is made only for an accepted token, and it asks the
      configured endpoint for the published success stories with the token,
      untrimmed, as bearer credential. */
  lemma UpstreamOnlyForAcceptedToken(token: QueryValue, endpoint: JsValues.JsValue, upstream: Upstream)
    ensures Handle(token, endpoint, upstream).sent.Some? <==> token.Text? && !Blank(token.s)
    ensures Handle(token, endpoint, upstream).sent.Some? ==>
              Handle(token, endpoint, upstream).sent
                == Some(Request(JsValues.TemplateString(endpoint) + "/items/success_stories?filter[status][_eq]=published",
                                "Bearer " + token.s))
  {
  }

  /** The empty string fails the presence check, not the format check. */
  lemma EmptyTokenIsMissing(endpoint: JsValues.JsValue, upstream: Upstream)
    ensures Handle(Text(""), endpoint, upstream).response == Response(400, ErrorMessage("Token is required"))
  {
  }

  /** A token of white space only passes the presence check and fails the
      format check. */
  lemma BlankTokenIsMalformed(endpoint: JsValues.JsValue, upstream: Upstream)
    ensures Handle(Text(" \t\n"), endpoint, upstream).response == Response(400, ErrorMessage("Invalid token format"))
  {
  }

  /** Repeating the parameter makes it an array, which is rejected as
      malformed, even when empty. */
  lemma ArrayTokenIsMalformed(items: seq<string>, endpoint: JsValues.JsValue, upstream: Upstream)
    ensures Handle(TextList(items), endpoint, upstream).response == Response(400, ErrorMessage("Invalid token format"))
  {
  }

  /** Surrounding spaces do not make a token invalid, and they are sent along. */
  lemma PaddedTokenSentAsIs(endpoint: JsValues.JsValue, upstream: Upstream)
    ensures Handle(Text(" abc "), endpoint, upstream).sent == Some(ContentRequest(endpoint, " abc "))
  {
  }

  // ---------------------------------------------------------------------
  // Mapping the upstream result (lines 17-32)
  // ---------------------------------------------------------------------

  /** For an accepted token the response is 200 exactly when the upstream
      answered ok with a non-null JSON body, and it then carries exactly
      `data.data`; every other outcome is 500 "Internal Server Error". */
  lemma UpstreamOutcome(token: QueryValue, endpoint: JsValues.JsValue, upstream: Upstream)
    requires Validate(token).Accepted?
    ensures var r := Handle(token, endpoint, upstream).response;
            && (r.status == 200 <==> upstream.Ok? && upstream.body != JNull)
            && (r.status != 200 ==> r == Response(500, ErrorMessage("Internal Server Error")))
            && (upstream.Ok? && upstream.body.JObject? && "data" in upstream.body.members ==>
                  r == Response(200, Payload(upstream.body.members["data"])))
            && (upstream.Ok? && upstream.body != JNull && !(upstream.body.JObject? && "data" in upstream.body.members) ==>
                  r == Response(200, NoPayload))
  {
  }

  /** The handler answers 200, 400 or 500, and 400 only without an upstream call. */
  lemma StatusCodes(token: QueryValue, endpoint: JsValues.JsValue, upstream: Upstream)
    ensures var h := Handle(token, endpoint, upstream);
            && h.response.status in {200, 400, 500}
            && (h.response.status == 400 <==> h.sent.None?)
  {
    var v := Validate(token);
    if v.Accepted? {
      assert Handle(token, endpoint, upstream) == Exchange(Some(ContentRequest(endpoint, v.token)), Reply(upstream));
    }
  }
}
