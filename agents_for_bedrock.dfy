/** The Agents for Amazon Bedrock handler: it recognises an agent action-group
    invocation, presents it to the web application as an HTTP request, and
    wraps the application's HTTP response into the agent's reply envelope. */
module AgentsForBedrockHandler {
  import opened Values
  import opened MangumTypes

  /** The request payload before serialisation: parameter name to value. */
  type Items = map<Key, Json>

  /** The event keys the reply envelope echoes, in the order they are read. */
  const EchoedKeys: seq<string> :=
    ["actionGroup", "apiPath", "httpMethod", "sessionAttributes", "promptSessionAttributes"]

  /** The first of `keys` that `event` lacks. */
  function FirstMissing(keys: seq<string>, event: Event): (r: Option<string>)
    ensures r.None? <==> forall k <- keys :: k in event
    ensures r.Some? ==> r.value in keys && r.value !in event
  {
    if keys == [] then None
    else if keys[0] !in event then Some(keys[0])
    else FirstMissing(keys[1..], event)
  }

  /** The first echoed key missing, spelled out in the order `__call__` reads them. */
  lemma FirstMissingEchoedKey(event: Event)
    ensures FirstMissing(EchoedKeys, event) ==
      if "actionGroup" !in event then Some("actionGroup")
      else if "apiPath" !in event then Some("apiPath")
      else if "httpMethod" !in event then Some("httpMethod")
      else if "sessionAttributes" !in event then Some("sessionAttributes")
      else if "promptSessionAttributes" !in event then Some("promptSessionAttributes")
      else None
  {
    var k4: seq<string> := ["promptSessionAttributes"];
    var k3 := ["sessionAttributes"] + k4;
    var k2 := ["httpMethod"] + k3;
    var k1 := ["apiPath"] + k2;
    assert k4[1..] == [] && k3[1..] == k4 && k2[1..] == k3 && k1[1..] == k2 && EchoedKeys[1..] == k1;
    assert FirstMissing(k4, event) == if "promptSessionAttributes" !in event then Some("promptSessionAttributes") else None;
    assert FirstMissing(k2, event) == if "httpMethod" !in event then Some("httpMethod") else FirstMissing(k3, event);
  }

  /** The reply envelope returned to the agent. */
  datatype AgentReply = AgentReply(messageVersion: string, response: ActionResponse)

  datatype ActionResponse = ActionResponse(
    actionGroup: Json,
    apiPath: Json,
    httpMethod: Json,
    httpStatusCode: int,
    responseBody: map<string, map<string, Bytes>>,
    sessionAttributes: Json,
    promptSessionAttributes: Json)

  /** Some level on the way to `requestBody.content["application/json"].properties`
      is missing, and every level before it is a dict. */
  ghost predicate PropertiesAbsent(event: Event) {
    || "requestBody" !in event
    || (event["requestBody"].Obj? &&
        var requestBody := event["requestBody"].fields;
        || "content" !in requestBody
        || (requestBody["content"].Obj? &&
            var content := requestBody["content"].fields;
            || "application/json" !in content
            || (content["application/json"].Obj? && "properties" !in content["application/json"].fields)))
  }

  /** Every level on the way to `properties` is present and a dict, and
      `properties` itself is present. */
  ghost predicate PropertiesPresent(event: Event) {
    && "requestBody" in event && event["requestBody"].Obj?
    && "content" in event["requestBody"].fields
    && event["requestBody"].fields["content"].Obj?
    && "application/json" in event["requestBody"].fields["content"].fields
    && event["requestBody"].fields["content"].fields["application/json"].Obj?
    && "properties" in event["requestBody"].fields["content"].fields["application/json"].fields
  }

  /** Some level on the way to `properties` is present but not a dict, and
      every level before it is a dict. */
  ghost predicate NonDictLevel(event: Event) {
    "requestBody" in event &&
    var requestBody := event["requestBody"];
    || !requestBody.Obj?
    || ("content" in requestBody.fields &&
        var content := requestBody.fields["content"];
        || !content.Obj?
        || ("application/json" in content.fields && !content.fields["application/json"].Obj?))
  }

  /** The `properties` value, every missing level defaulting to an empty dict
      (an empty list for `properties` itself). */
  function RequestProperties(event: Event): (r: Result<Json>)
    ensures r.Err? <==> NonDictLevel(event)
    ensures r.Err? ==> r.error == AttributeError
    ensures PropertiesAbsent(event) ==> r == Ok(Arr([]))
    ensures PropertiesPresent(event) ==>
      r == Ok(event["requestBody"].fields["content"].fields["application/json"].fields["properties"])
  {
    var requestBody := if "requestBody" in event then event["requestBody"] else Obj(map[]);
    var content :- GetOr(requestBody, "content", Obj(map[]));
    var applicationJson :- GetOr(content, "application/json", Obj(map[]));
    GetOr(applicationJson, "properties", Arr([]))
  }

  /** What `for item in properties` iterates over. */
  function Elements(properties: Json): Result<seq<Json>> {
    match properties
    case Arr(elems) => Ok(elems)
    // a str yields its characters, each a one-character str
    case Str(s) => Ok(seq(|s|, i requires 0 <= i < |s| => Str([s[i]])))
    // a dict yields its keys, all str, so a non-empty dict fails at the
    // first subscript `item["value"]`, whichever key comes first
    case Obj(fields) => if fields == map[] then Ok([]) else Err(TypeError)
    // None, bool and int are not iterable
    case _ => Err(TypeError)
  }

  /** One loop step's reads, `items[item["name"]] = item["value"]`: Python
      evaluates the right-hand side first, then hashes the key. */
  function Entry(item: Json): Result<(Key, Json)> {
    match item
    case Obj(fields) =>
      if "value" !in fields then Err(KeyError("value"))
      else if "name" !in fields then Err(KeyError("name"))
      else if !fields["name"].Hashable() then Err(TypeError)
      else Ok((fields["name"], fields["value"]))
    // a str, a list, None, a bool or an int cannot be subscripted by a str
    case _ => Err(TypeError)
  }

  /** The entries the loop writes, in order, or the first exception. */
  function Entries(items: seq<Json>): Result<seq<(Key, Json)>>
    decreases |items|
  {
    if items == [] then Ok([])
    else
      var written :- Entries(items[..|items| - 1]);
      var entry :- Entry(items[|items| - 1]);
      Ok(written + [entry])
  }

  /** Writing the entries one after another into an empty dict. */
  function Collect(entries: seq<(Key, Json)>): Items
    decreases |entries|
  {
    if entries == [] then map[]
    else
      var last := entries[|entries| - 1];
      Collect(entries[..|entries| - 1])[last.0 := last.1]
  }

  /** The loop over the elements and the emptiness test after it: None when
      nothing was written. */
  function FoldElements(items: seq<Json>): Result<Option<Items>> {
    var entries :- Entries(items);
    var written := Collect(entries);
    Ok(if |written| > 0 then Some(written) else None)
  }

  /** The payload the `body` property serialises. */
  function SynthesizedBody(event: Event): Result<Option<Items>> {
    var properties :- RequestProperties(event);
    var items :- Elements(properties);
    FoldElements(items)
  }

  /** An exception raised at some step of the loop is what the whole loop raises. */
  lemma {:induction false} EntriesErrorPersists(items: seq<Json>, n: nat)
    requires 0 < n <= |items|
    requires Entries(items[..n]).Err?
    ensures Entries(items) == Entries(items[..n])
    decreases |items| - n
  {
    if n < |items| {
      var init := items[..|items| - 1];
      assert init[..n] == items[..n];
      EntriesErrorPersists(init, n);
    } else {
      assert items[..n] == items;
    }
  }

  /** One more step of the loop, over the prefix `items[..i + 1]`. */
  lemma EntriesStep(items: seq<Json>, i: int, written: seq<(Key, Json)>)
    requires 0 <= i < |items| && Entries(items[..i]) == Ok(written)
    ensures Entry(items[i]).Err? ==> Entries(items[..i + 1]) == Err(Entry(items[i]).error)
    ensures Entry(items[i]).Ok? ==> Entries(items[..i + 1]) == Ok(written + [Entry(items[i]).value])
  {
    assert items[..i + 1][..i] == items[..i];
  }

  /** Writing one more entry updates the dict under its name. */
  lemma CollectStep(written: seq<(Key, Json)>, entry: (Key, Json))
    ensures Collect(written + [entry]) == Collect(written)[entry.0 := entry.1]
  {
    assert (written + [entry])[..|written|] == written;
  }

  /** The handler for one invocation; its fields are set once, at construction. */
  datatype AgentsForBedrock = AgentsForBedrock(event: Event, context: LambdaContext, config: LambdaConfig)
  {
    /** The event is agent-shaped exactly when it has the key "agent". */
    static function Infer(event: Event, context: LambdaContext, config: LambdaConfig): bool {
      "agent" in event
    }

    /** The `body` property: folds the `{name, value}` list into a dict,
        the last write to a name winning. */
    method Body() returns (r: Result<Option<Items>>)
      ensures r == SynthesizedBody(event)
    {
      var items: Items := map[];
      var requestBody := if "requestBody" in event then event["requestBody"] else Obj(map[]);
      var content :- GetOr(requestBody, "content", Obj(map[]));
      var applicationJson :- GetOr(content, "application/json", Obj(map[]));
      var properties :- GetOr(applicationJson, "properties", Arr([]));
      assert RequestProperties(event) == Ok(properties);
      var elements :- Elements(properties);
      assert SynthesizedBody(event) == FoldElements(elements);
      ghost var written: seq<(Key, Json)> := [];
      var i := 0;
      while i < |elements|
        invariant 0 <= i <= |elements|
        invariant Entries(elements[..i]) == Ok(written)
        invariant items == Collect(written)
      {
        var entry := Entry(elements[i]);
        EntriesStep(elements, i, written);
        if entry.Err? {
          EntriesErrorPersists(elements, i + 1);
          return Err(entry.error);
        }
        items := items[entry.value.0 := entry.value.1];
        CollectStep(written, entry.value);
        written := written + [entry.value];
        i := i + 1;
      }
      assert elements[..i] == elements;
      r := Ok(if |items| > 0 then Some(items) else None);
    }

    /** The `scope` property: the HTTP request the application sees. */
    function Scope(): (r: Result<MangumTypes.Scope>)
      ensures r.Ok? <==> "httpMethod" in event && "apiPath" in event
      ensures "httpMethod" !in event ==> r == Err(KeyError("httpMethod"))
      ensures "httpMethod" in event && "apiPath" !in event ==> r == Err(KeyError("apiPath"))
      ensures r.Ok? ==>
        && r.value.scopeType == "http"
        && r.value.httpVersion == "1.1"
        && r.value.scheme == "https"
        && r.value.asgi == Asgi("3.0", "2.0")
        && r.value.httpMethod == event["httpMethod"]
        && r.value.path == event["apiPath"]
        && r.value.headers == []
        && r.value.queryString == None
        && r.value.awsEvent == event
        && r.value.awsContext == context
    {
      var httpMethod :- Subscript(event, "httpMethod");
      var path :- Subscript(event, "apiPath");
      Ok(MangumTypes.Scope(
        "http", httpMethod, "1.1", [], path, "https", None, Asgi("3.0", "2.0"), event, context))
    }

    /** `__call__`: wraps the application's response into the reply envelope. */
    function Call(response: Response): (r: Result<AgentReply>)
      ensures r.Ok? <==>
        && "actionGroup" in event && "apiPath" in event && "httpMethod" in event
        && "sessionAttributes" in event && "promptSessionAttributes" in event
      ensures r.Err? ==> r.error.KeyError?
      ensures r.Ok? ==>
        && r.value.messageVersion == "1.0"
        && r.value.response.httpStatusCode == response.status
        && "application/json" in r.value.response.responseBody
        && "body" in r.value.response.responseBody["application/json"]
        && r.value.response.responseBody["application/json"]["body"] == response.body
        && r.value.response.actionGroup == event["actionGroup"]
        && r.value.response.apiPath == event["apiPath"]
        && r.value.response.httpMethod == event["httpMethod"]
        && r.value.response.sessionAttributes == event["sessionAttributes"]
        && r.value.response.promptSessionAttributes == event["promptSessionAttributes"]
    {
      var actionGroup :- Subscript(event, "actionGroup");
      var apiPath :- Subscript(event, "apiPath");
      var httpMethod :- Subscript(event, "httpMethod");
      var sessionAttributes :- Subscript(event, "sessionAttributes");
      var promptSessionAttributes :- Subscript(event, "promptSessionAttributes");
      Ok(AgentReply("1.0", ActionResponse(
        actionGroup, apiPath, httpMethod, response.status,
        map["application/json" := map["body" := response.body]],
        sessionAttributes, promptSessionAttributes)))
    }
  }

  /** Wrapping raises `KeyError` for the first echoed key the event lacks,
      and succeeds exactly when none is missing. */
  lemma CallRaisesFirstMissingKey(handler: AgentsForBedrock, response: Response)
    ensures handler.Call(response).Ok? <==> forall k <- EchoedKeys :: k in handler.event
    ensures handler.Call(response).Err? ==>
      handler.Call(response) == Err(KeyError(FirstMissing(EchoedKeys, handler.event).value))
  {
    FirstMissingEchoedKey(handler.event);
  }
}
