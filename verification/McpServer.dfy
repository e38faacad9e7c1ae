/**
 * The development MCP server: one reply per request, the same over stdio and HTTP.
 */
module McpServer {
  import opened Prelude
  import opened StdioJsonRpc

  /** `undefined` is `Absent`: such a request is a notification. */
  datatype Id = Absent | NullId | NumberId(n: int) | StringId(s: string)

  datatype Request<P> = Request(id: Id, name: string, params: P)

  datatype Response<R> = Success(id: Id, result: R) | Failure(id: Id, code: int, message: string)

  const PARSE_ERROR := -32700
  const INVALID_REQUEST := -32600
  const INTERNAL_ERROR := -32603

  /** A handler returns, or throws something with or without a numeric code. */
  datatype Outcome<R> = Returned(value: R) | Thrown(code: Option<int>, message: string)

  /** JSON parsing, request validation and the handlers of the known methods. */
  datatype Server<!S, !J, !P, !R> = Server(
    parseJson: string -> Option<J>,
    validate: J -> Option<Request<P>>,
    call: (S, string, P) -> (S, Outcome<R>))

  const METHODS := {
    "initialize", "notifications/initialized", "tools/list", "tools/call", "resources/list",
    "resources/templates/list", "resources/read", "prompts/list", "prompts/get"
  }

  function DispatchMethod<S, J, P, R>(server: Server<S, J, P, R>, s: S, name: string, params: P): (S, Outcome<R>) {
    if name in METHODS then server.call(s, name, params) else (s, Thrown(None, "Unknown method: " + name))
  }

  function ErrorResponse<R>(id: Id, code: Option<int>, message: string): Response<R> {
    Failure(id, if code.Some? then code.value else INTERNAL_ERROR, message)
  }

  function HandleRequest<S, J, P, R>(server: Server<S, J, P, R>, s: S, q: Request<P>): (S, Response<R>) {
    var (next, outcome) := DispatchMethod(server, s, q.name, q.params);
    match outcome
    case Returned(value) => (next, Success(q.id, value))
    case Thrown(code, message) => (next, ErrorResponse(q.id, code, message))
  }

  function InternalError<R>(id: Id): Response<R> {
    Failure(if id == Absent then NullId else id, INTERNAL_ERROR, "Internal error")
  }

  /** What the server hands to a transport: its handler always resolves. */
  function Transport<S, J, P, R>(server: Server<S, J, P, R>): Options<S, J, Request<P>, Response<R>> {
    Options(
      server.parseJson,
      server.validate,
      (s: S, q: Request<P>) => (HandleRequest(server, s, q).0, Some(HandleRequest(server, s, q).1)),
      (q: Request<P>) => q.id == Absent,
      Failure(NullId, PARSE_ERROR, "Parse error"),
      Failure(NullId, INVALID_REQUEST, "Invalid Request"),
      (q: Request<P>) => InternalError(q.id))
  }

  // ----- One reply per request, in order, with its id -----

  datatype Kind = Blank | Unparsable | Invalid | Notification | Call(id: Id)

  /** What a line is, whatever the server's state. */
  function Classify<S, J, P, R>(server: Server<S, J, P, R>, raw: string): Kind {
    if Trim(raw) == "" then Blank
    else
      match server.parseJson(Trim(raw))
      case None => Unparsable
      case Some(payload) =>
        match server.validate(payload)
        case None => Invalid
        case Some(q) => if q.id == Absent then Notification else Call(q.id)
  }

  /** The ids a client may expect, in order: null for lines that are not requests. */
  function ExpectedIds<S, J, P, R>(server: Server<S, J, P, R>, lines: seq<string>): seq<Id> {
    if lines == [] then []
    else
      ExpectedIds(server, lines[..|lines| - 1])
      + match Classify(server, lines[|lines| - 1])
        case Blank => []
        case Notification => []
        case Unparsable => [NullId]
        case Invalid => [NullId]
        case Call(id) => [id]
  }

  function ResponseIds<R>(responses: seq<Response<R>>): (ids: seq<Id>)
    ensures |ids| == |responses|
  {
    seq(|responses|, i requires 0 <= i < |responses| => responses[i].id)
  }

  function CountKind<S, J, P, R>(server: Server<S, J, P, R>, lines: seq<string>, kind: Kind): nat {
    if lines == [] then 0
    else CountKind(server, lines[..|lines| - 1], kind) + if Classify(server, lines[|lines| - 1]) == kind then 1 else 0
  }

  lemma LineReplies<S, J, P, R>(server: Server<S, J, P, R>, s: S, raw: string)
    ensures
      var written := ServeLine(Transport(server), s, raw).1;
      match Classify(server, raw)
      case Blank => written == []
      case Notification => written == []
      case Unparsable => written == [Failure(NullId, PARSE_ERROR, "Parse error")]
      case Invalid => written == [Failure(NullId, INVALID_REQUEST, "Invalid Request")]
      case Call(id) => |written| == 1 && written[0].id == id
  {}

  /** Responses come in request order, one for each line that is neither blank nor a notification, with its id. */
  lemma {:induction false} RepliesInOrder<S, J, P, R>(server: Server<S, J, P, R>, s: S, lines: seq<string>)
    ensures
      var written := Serve(Transport(server), s, lines).1;
      && ResponseIds(written) == ExpectedIds(server, lines)
      && |written| == |lines| - CountKind(server, lines, Blank) - CountKind(server, lines, Notification)
  {
    if lines != [] {
      var init, raw := lines[..|lines| - 1], lines[|lines| - 1];
      var (before, written) := Serve(Transport(server), s, init);
      RepliesInOrder(server, s, init);
      LineReplies(server, before, raw);
      var more := ServeLine(Transport(server), before, raw).1;
      assert ResponseIds(written + more) == ResponseIds(written) + ResponseIds(more);
    }
  }

  /** An unknown method changes nothing and is answered with the internal-error code. */
  lemma UnknownMethod<S, J, P, R>(server: Server<S, J, P, R>, s: S, q: Request<P>)
    requires q.name !in METHODS
    ensures HandleRequest(server, s, q) == (s, Failure(q.id, INTERNAL_ERROR, "Unknown method: " + q.name))
  {}

  // ----- HTTP -----

  datatype Http<R> = Http(status: int, body: Option<R>)

  /** The body handling of the HTTP endpoint, for bodies within the size limit. */
  function HttpReply<S, J, Q, R>(o: Options<S, J, Q, R>, s: S, body: string): (S, Http<R>) {
    match o.parseJson(body)
    case None => (s, Http(400, Some(o.parseError)))
    case Some(payload) =>
      match o.parseRequest(payload)
      case None => (s, Http(400, Some(o.invalidRequest)))
      case Some(q) =>
        var (next, response) := o.handle(s, q);
        if o.isNotification(q) then (next, Http(202, None))
        else if response.Some? then (next, Http(200, response))
        else (next, Http(500, Some(o.errorResponse(q))))
  }

  /**
   * For a message on one line that parses as its trimmed form does, HTTP answers with the line stdio writes
   * and leaves the same state; 202 with no body stands for no line.
   */
  lemma HttpMatchesStdio<S, J, Q, R>(o: Options<S, J, Q, R>, s: S, body: string)
    requires '\n' !in body && Trim(body) != ""
    requires o.parseJson(body) == o.parseJson(Trim(body))
    ensures
      var (next, http) := HttpReply(o, s, body);
      && Serve(o, s, Lines(body + "\n")) == (next, if http.body.Some? then [http.body.value] else [])
      && (http.status == 202 <==> http.body.None?)
  {
    OneLineServed(o, s, body);
    LineMatchesHttp(o, s, body);
  }

  lemma LineMatchesHttp<S, J, Q, R>(o: Options<S, J, Q, R>, s: S, body: string)
    requires Trim(body) != "" && o.parseJson(body) == o.parseJson(Trim(body))
    ensures
      var (next, http) := HttpReply(o, s, body);
      && ServeLine(o, s, body) == (next, if http.body.Some? then [http.body.value] else [])
      && (http.status == 202 <==> http.body.None?)
  {}

  lemma ServeOne<S, J, Q, R>(o: Options<S, J, Q, R>, s: S, raw: string)
    ensures Serve(o, s, [raw]) == ServeLine(o, s, raw)
  {
    ServeSnoc(o, s, [], raw);
    assert [] + [raw] == [raw];
    assert [] + ServeLine(o, s, raw).1 == ServeLine(o, s, raw).1;
  }

  // ----- When HTTP and stdio parse alike -----

  /** JSON's own whitespace. */
  predicate JsonSpace(c: char) {
    c == ' ' || c == '\t' || c == '\n' || c == '\r'
  }

  predicate JsonBlank(s: string) {
    forall i :: 0 <= i < |s| ==> JsonSpace(s[i])
  }

  /** `trim` removes it, JSON does not allow it outside strings: a no-break space, say. */
  predicate ForeignSpace(c: char) {
    IsSpace(c) && !JsonSpace(c)
  }

  /** What is assumed of `JSON.parse`: it skips its own whitespace around a text and rejects foreign blanks there. */
  ghost predicate JsonParser<J(!new)>(parse: string -> Option<J>) {
    && (forall before, t, after :: JsonBlank(before) && JsonBlank(after) ==> parse(before + t + after) == parse(t))
    && (forall t :: parse(t).Some? ==> t != "" && !ForeignSpace(t[0]) && !ForeignSpace(t[|t| - 1]))
  }

  lemma {:induction false} TrimSplits(s: string) returns (before: string, after: string)
    ensures s == before + Trim(s) + after
    ensures forall c :: c in before || c in after ==> IsSpace(c)
  {
    before := TrimStartSplits(s);
    after := TrimEndSplits(TrimStart(s));
    assert before + (Trim(s) + after) == before + Trim(s) + after;
  }

  lemma {:induction false} TrimStartSplits(s: string) returns (before: string)
    ensures s == before + TrimStart(s)
    ensures forall c :: c in before ==> IsSpace(c)
  {
    if s != "" && IsSpace(s[0]) {
      before := TrimStartSplits(s[1..]);
      assert s == [s[0]] + before + TrimStart(s);
      before := [s[0]] + before;
    } else {
      before := "";
    }
  }

  lemma {:induction false} TrimEndSplits(s: string) returns (after: string)
    ensures s == TrimEnd(s) + after
    ensures forall c :: c in after ==> IsSpace(c)
  {
    if s != "" && IsSpace(s[|s| - 1]) {
      after := TrimEndSplits(s[..|s| - 1]);
      assert s == TrimEnd(s) + (after + [s[|s| - 1]]);
      after := after + [s[|s| - 1]];
    } else {
      after := "";
    }
  }

  /** Text with a foreign blank before or after it, possibly behind JSON blanks, does not parse. */
  lemma {:induction false} ForeignBefore<J(!new)>(parse: string -> Option<J>, before: string, rest: string)
    requires JsonParser(parse) && (forall c :: c in before ==> IsSpace(c)) && !JsonBlank(before)
    ensures parse(before + rest).None?
  {
    if JsonSpace(before[0]) {
      ForeignBefore(parse, before[1..], rest);
      assert before + rest == [before[0]] + (before[1..] + rest) + "";
      assert JsonBlank([before[0]]) && JsonBlank("");
    } else {
      assert (before + rest)[0] == before[0];
    }
  }

  lemma {:induction false} ForeignAfter<J(!new)>(parse: string -> Option<J>, front: string, after: string)
    requires JsonParser(parse) && (forall c :: c in after ==> IsSpace(c)) && !JsonBlank(after)
    ensures parse(front + after).None?
  {
    var init, last := after[..|after| - 1], after[|after| - 1];
    if JsonSpace(last) {
      ForeignAfter(parse, front, init);
      assert front + after == "" + (front + init) + [last];
      assert JsonBlank([last]) && JsonBlank("");
    } else {
      assert (front + after)[|front + after| - 1] == last;
    }
  }

  /** Only JSON's own whitespace stands around the message. */
  ghost predicate JsonSurrounded(body: string) {
    exists before, after :: JsonBlank(before) && JsonBlank(after) && body == before + Trim(body) + after
  }

  /** A message parses as its trimmed form does exactly when only JSON blanks surround it, or it is not JSON anyway. */
  lemma SameParseIff<J(!new)>(parse: string -> Option<J>, body: string)
    requires JsonParser(parse)
    ensures parse(body) == parse(Trim(body)) <==> JsonSurrounded(body) || parse(Trim(body)).None?
  {
    if !JsonSurrounded(body) { ForeignUnparsed(parse, body); }
  }

  lemma ForeignUnparsed<J(!new)>(parse: string -> Option<J>, body: string)
    requires JsonParser(parse) && !JsonSurrounded(body)
    ensures parse(body).None?
  {
    var before, after := TrimSplits(body);
    if !JsonBlank(before) {
      ForeignBefore(parse, before, Trim(body) + after);
      assert before + (Trim(body) + after) == body;
    } else {
      ForeignAfter(parse, before + Trim(body), after);
    }
  }

  /** A no-break space before a message that parses: stdio reads it, HTTP does not. */
  lemma NoBreakSpaceDiffers<J(!new)>(parse: string -> Option<J>, message: string)
    requires JsonParser(parse) && parse(message).Some? && Trim(message) == message
    ensures Trim("\U{a0}" + message) == message && parse("\U{a0}" + message).None?
  {
    assert ("\U{a0}" + message)[1..] == message;
    assert ForeignSpace('\U{a0}');
    TrimStartIdentity(message);
  }

  /** So the transports disagree, unless the handler fails the way unparsable text does. */
  lemma NoBreakSpaceDisagrees<S, J(!new), P, R>(server: Server<S, J, P, R>, s: S, message: string)
    requires JsonParser(server.parseJson) && server.parseJson(message).Some?
    requires Trim(message) == message && '\n' !in message && !FailsLikeParseError(server, s, message)
    ensures !TransportsAgree(Transport(server), s, "\U{a0}" + message)
  {
    NoBreakSpaceDiffers(server.parseJson, message);
    SameParseIff(server.parseJson, "\U{a0}" + message);
    TransportsAgreeIff(server, s, "\U{a0}" + message);
  }

  lemma TrimStartIdentity(s: string)
    requires Trim(s) == s
    ensures TrimStart(s) == s
  {
    var before := TrimStartSplits(s);
    var after := TrimEndSplits(TrimStart(s));
    assert |s| == |before| + |Trim(s)| + |after|;
  }

  // ----- When the transports agree -----

  /** Both leave the same state, and the HTTP body is the line stdio writes, no body standing for no line. */
  ghost predicate TransportsAgree<S, J, Q, R>(o: Options<S, J, Q, R>, s: S, body: string) {
    var (next, http) := HttpReply(o, s, body);
    Serve(o, s, Lines(body + "\n")) == (next, if http.body.Some? then [http.body.value] else [])
  }

  /** The message is a request with id null that fails just as unparsable text does. */
  ghost predicate FailsLikeParseError<S, J, P, R>(server: Server<S, J, P, R>, s: S, message: string)
    requires server.parseJson(message).Some?
  {
    var q := server.validate(server.parseJson(message).value);
    && q.Some? && q.value.id != Absent
    && HandleRequest(server, s, q.value) == (s, Failure(NullId, PARSE_ERROR, "Parse error"))
  }

  /**
   * For a message on one line, HTTP and stdio agree exactly when it is not blank and it parses as its trimmed form
   * does, or its handler happens to throw what a parse error looks like.
   */
  lemma TransportsAgreeIff<S, J(!new), P, R>(server: Server<S, J, P, R>, s: S, body: string)
    requires '\n' !in body && JsonParser(server.parseJson)
    ensures TransportsAgree(Transport(server), s, body) <==>
      && Trim(body) != ""
      && (JsonSurrounded(body) || server.parseJson(Trim(body)).None? || FailsLikeParseError(server, s, Trim(body)))
  {
    var o := Transport(server);
    SameParseIff(server.parseJson, body);
    if Trim(body) == "" {
      BlankUnparsed(server.parseJson, body);
      UnparsedAgreeIff(server, s, body);
    } else if server.parseJson(body) == server.parseJson(Trim(body)) {
      HttpMatchesStdio(o, s, body);
    } else {
      Unparsed(server.parseJson, body);
      UnparsedAgreeIff(server, s, body);
    }
  }

  lemma OneLineServed<S, J, Q, R>(o: Options<S, J, Q, R>, s: S, body: string)
    requires '\n' !in body
    ensures Serve(o, s, Lines(body + "\n")) == ServeLine(o, s, body)
  {
    LineAhead(body, "");
    assert body + "\n" + "" == body + "\n" && Lines(body + "\n") == [body];
    ServeOne(o, s, body);
  }

  /** HTTP answers with a parse error; stdio may too. */
  lemma UnparsedAgreeIff<S, J, P, R>(server: Server<S, J, P, R>, s: S, body: string)
    requires '\n' !in body && server.parseJson(body).None?
    requires Trim(body) == "" || server.parseJson(Trim(body)).Some?
    ensures TransportsAgree(Transport(server), s, body) <==> Trim(body) != "" && FailsLikeParseError(server, s, Trim(body))
  {
    OneLineServed(Transport(server), s, body);
  }

  lemma BlankUnparsed<J(!new)>(parse: string -> Option<J>, body: string)
    requires JsonParser(parse) && Trim(body) == ""
    ensures parse(body).None?
  {
    SameParseIff(parse, body);
    assert parse("").None?;
  }

  lemma Unparsed<J(!new)>(parse: string -> Option<J>, body: string)
    requires JsonParser(parse) && parse(body) != parse(Trim(body))
    ensures parse(body).None? && parse(Trim(body)).Some?
  {
    SameParseIff(parse, body);
    ForeignUnparsed(parse, body);
  }

  // ----- What a call is answered with -----

  /** What a client is told of an outcome. */
  ghost predicate Answers<R>(response: Response<R>, id: Id, outcome: Outcome<R>) {
    match outcome
    case Returned(value) => response == Success(id, value)
    case Thrown(None, message) => response == Failure(id, -32603, message)
    case Thrown(Some(code), message) => response == Failure(id, code, message)
  }

  /** The text is a request for a method the server has, and this is what its handler does. */
  ghost predicate Handles<S(!new), J, P, R>(
    server: Server<S, J, P, R>, s: S, text: string, q: Request<P>, next: S, outcome: Outcome<R>)
  {
    && server.parseJson(text).Some? && server.validate(server.parseJson(text).value) == Some(q)
    && q.name in METHODS && server.call(s, q.name, q.params) == (next, outcome)
  }

  /** A line with a call leaves the state its handler leaves, and is answered with the handler's result or error. */
  lemma CallAnswered<S(!new), J, P, R>(
      server: Server<S, J, P, R>, s: S, raw: string, q: Request<P>, next: S, outcome: Outcome<R>)
    requires Trim(raw) != "" && Handles(server, s, Trim(raw), q, next, outcome)
    ensures ServeLine(Transport(server), s, raw).0 == next
    ensures
      var written := ServeLine(Transport(server), s, raw).1;
      if q.id == Absent then written == [] else |written| == 1 && Answers(written[0], q.id, outcome)
  {}

  /** Over HTTP: 200 with that answer, 202 without body for a notification. */
  lemma CallAnsweredOverHttp<S(!new), J, P, R>(
      server: Server<S, J, P, R>, s: S, body: string, q: Request<P>, next: S, outcome: Outcome<R>)
    requires Handles(server, s, body, q, next, outcome)
    ensures HttpReply(Transport(server), s, body).0 == next
    ensures
      var http := HttpReply(Transport(server), s, body).1;
      if q.id == Absent then http == Http(202, None)
      else http.status == 200 && http.body.Some? && Answers(http.body.value, q.id, outcome)
  {}

  /** A body that is no request: 400, with the error, and nothing happens. */
  lemma MalformedOverHttp<S, J, P, R>(server: Server<S, J, P, R>, s: S, body: string)
    ensures server.parseJson(body).None? ==>
      HttpReply(Transport(server), s, body) == (s, Http(400, Some(Failure(NullId, -32700, "Parse error"))))
    ensures server.parseJson(body).Some? && server.validate(server.parseJson(body).value).None? ==>
      HttpReply(Transport(server), s, body) == (s, Http(400, Some(Failure(NullId, -32600, "Invalid Request"))))
  {}

  /** A request for any other method: nothing happens, and the answer is an internal error. */
  lemma UnknownAnswered<S, J, P, R>(server: Server<S, J, P, R>, s: S, raw: string, q: Request<P>)
    requires Trim(raw) != "" && server.parseJson(Trim(raw)).Some?
    requires server.validate(server.parseJson(Trim(raw)).value) == Some(q) && q.name !in METHODS
    ensures ServeLine(Transport(server), s, raw)
         == (s, if q.id == Absent then [] else [Failure(q.id, -32603, "Unknown method: " + q.name)])
  {}

  /** The methods the server has. */
  lemma KnownMethods(name: string)
    ensures name in METHODS <==>
      || name == "initialize" || name == "notifications/initialized" || name == "tools/list" || name == "tools/call"
      || name == "resources/list" || name == "resources/templates/list" || name == "resources/read"
      || name == "prompts/list" || name == "prompts/get"
  {}
}
