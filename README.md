# Agents for Amazon Bedrock transport adapter, in Dafny

This project models the Mangum custom handler `AgentsForBedrock` of the
hotel-booking-agents service. The handler lets one FastAPI application serve
two kinds of Lambda events: ordinary HTTP events and Agents for Amazon
Bedrock action-group invocations. For an agent invocation it does four things:

1. **Shape detection.** `infer` says whether the event is agent-shaped.
2. **Body synthesis.** The `body` property folds the event's `{name, value}`
   parameter list into a dict.
3. **Scope synthesis.** The `scope` property presents the invocation as an
   HTTP request.
4. **Response wrapping.** `__call__` wraps the application's HTTP response
   into the agent's reply envelope.

Files and modules:

- `values.dfy` (`Values`). The decoded event is a Python dict of JSON values (`Json`, `Event`).
  The exceptions the handler can raise are `KeyError`, `TypeError` and `AttributeError`.
  `Result` carries either a value or the exception.
  `Subscript` models `d[key]`; `GetOr` models `d.get(key, default)`.
- `mangum_types.dfy` (`MangumTypes`). Mangum's scope and response records.
  The Lambda context and configuration are opaque types.
- `agents_for_bedrock.dfy` (`AgentsForBedrockHandler`). The handler itself.
  Its fields are set once in `__init__` and never change, so it is a datatype `AgentsForBedrock(event, context, config)`.
  - `Infer`, `Scope` and `Call` are member functions.
  - `Body` is a member method. Its loop writes into a local dict, as the source does.
    The method is proved equal to the specification function `SynthesizedBody`.
    That function is built from `RequestProperties` (the `.get` chain), `Elements` (what `for` iterates over), `Entry` (one loop step), `Entries` (all steps), `Collect` (writing the entries into a dict) and `FoldElements` (the loop plus the emptiness test after it).
- `body_synthesis.dfy` (`BodySynthesis`). Properties of the fold: last write wins, absent levels, "no body", and order irrelevance for distinct names.
- `envelope.dfy` (`Envelope`). Properties of shape detection and of the reply envelope.
- `mangum_cycle.dfy` (`MangumCycle`). One invocation from end to end.
  The FastAPI application is an arbitrary function from (scope, body) to response.

Exceptions follow Python's evaluation order.
- `items[item["name"]] = item["value"]` evaluates `item["value"]` first. So an item missing both keys raises `KeyError('value')`.
- The reply envelope reads `actionGroup`, `apiPath`, `httpMethod`, `sessionAttributes` and `promptSessionAttributes` in that order.
  The first one missing is the `KeyError` raised.
- `scope` reads `httpMethod` before `apiPath`.
- Iterating a string yields one-character strings. Iterating a dict yields its string keys.
  Either way, a non-empty one fails with `TypeError` at the first `item["value"]`.
  `None`, booleans and numbers are not iterable.
- A list or dict used as a `name` is unhashable, which raises `TypeError`.

In three places the handler's behaviour differs from what its role suggests; the model follows the code:
- A malformed envelope fails with a plain Python `KeyError` (from `scope` or `__call__`), not with a diagnostic response.
- Reordering the parameter list leaves the body unchanged only when the names are distinct. With repeated names, the last one written wins.
- The passthrough of plain HTTP events is done by Mangum's built-in handlers. It is not done by this class.

## Model

| member | source | states |
|---|---|---|
| `AgentsForBedrockHandler.AgentsForBedrock.Body` | agents/handler/agents_for_bedrock.py:21-35 | the loop computes exactly `SynthesizedBody(event)`: the dict built from the parameter list (None when it is empty), or the first exception the loop raises |
| `AgentsForBedrockHandler.RequestProperties` | agents/handler/agents_for_bedrock.py:25-28 | when every level of `requestBody.content["application/json"].properties` is present and a dict, the `properties` value is returned as it is; a missing level defaults to empty and gives an empty list; it raises `AttributeError` exactly when a level that is present is not a dict |
| `AgentsForBedrockHandler.EntriesErrorPersists` | agents/handler/agents_for_bedrock.py:29-30 | an exception raised at any step of the loop is the exception of the whole loop |
| `AgentsForBedrockHandler.AgentsForBedrock.Scope` | agents/handler/agents_for_bedrock.py:37-50 | the scope exists exactly when `httpMethod` and `apiPath` are present, with `KeyError` for the first one missing; then its type is `"http"`, its HTTP version "1.1", its scheme "https", its ASGI versions "3.0"/"2.0", its method and path are the event's `httpMethod` and `apiPath` verbatim, headers are empty, there is no query string, and it carries the event and the context |
| `AgentsForBedrockHandler.FirstMissingEchoedKey` | agents/handler/agents_for_bedrock.py:56-62 | proof helper for `CallRaisesFirstMissingKey`: the first missing echoed key, spelled out in the order actionGroup, apiPath, httpMethod, sessionAttributes, promptSessionAttributes |
| `AgentsForBedrockHandler.CallRaisesFirstMissingKey` | agents/handler/agents_for_bedrock.py:52-64 | wrapping succeeds exactly when every echoed key is present, and otherwise raises `KeyError` for the first one missing in reading order |
| `AgentsForBedrockHandler.AgentsForBedrock.Call` | agents/handler/agents_for_bedrock.py:52-64 | wrapping succeeds exactly when all five echoed keys are present, else `KeyError` for the first one missing; the reply has `messageVersion` "1.0", `httpStatusCode` equal to the response status (no remapping), `responseBody["application/json"]["body"]` equal to the response body, and the five routing and session fields copied from the event |
| `BodySynthesis.EntriesPointwise` | agents/handler/agents_for_bedrock.py:29-30 | the loop succeeds exactly when every item is a `{name, value}` dict with a hashable name, and then writes one entry per item, in order |
| `BodySynthesis.WrittenNameIsKey` | agents/handler/agents_for_bedrock.py:29-30 | every name written is a key of the resulting dict |
| `BodySynthesis.KeyHasLastEntry` | agents/handler/agents_for_bedrock.py:29-30 | every key of the resulting dict was written, and has a last entry |
| `BodySynthesis.LastEntryGivesValue` | agents/handler/agents_for_bedrock.py:29-30 | the value of a name is the value of its last entry |
| `BodySynthesis.CollectLastWriteWins` | agents/handler/agents_for_bedrock.py:23-30 | the dict holds exactly the names in the list, each mapped to the value of its last occurrence |
| `BodySynthesis.NoBodyExactlyWhenNoProperties` | agents/handler/agents_for_bedrock.py:32-35 | the payload is None exactly when the parameter list is empty or absent, and a present payload is never an empty dict |
| `BodySynthesis.AbsentPropertiesGiveNoBody` | agents/handler/agents_for_bedrock.py:25-28 | a missing `requestBody`, `content`, `application/json` or `properties` is no error and gives no body |
| `BodySynthesis.ReorderedEntries` | agents/handler/agents_for_bedrock.py:29-30 | if the loop succeeds on a parameter list, it succeeds on any reordering of it and writes the same set of entries |
| `BodySynthesis.SameEntriesSameDict` | agents/handler/agents_for_bedrock.py:29-30 | two entry lists holding the same entries, one with distinct names, build the same dict whatever their order |
| `BodySynthesis.CollectIgnoresOrder` | agents/handler/agents_for_bedrock.py:29-30 | with distinct names, any reordering of the list also succeeds and builds the same dict |
| `BodySynthesis.PropertyOrderIrrelevant` | agents/handler/agents_for_bedrock.py:25-30 | two events whose parameter lists are reorderings of each other, with distinct names, synthesise the same body |
| `BodySynthesis.RepeatedNameKeepsLastValue` | agents/handler/agents_for_bedrock.py:29-30 | any name given twice keeps the second value |
| `BodySynthesis.WellFormedEntries` | agents/handler/agents_for_bedrock.py:29-30 | a list of `{name, value}` dicts with hashable names never raises in the loop, and writes each element's name and value in order |
| `BodySynthesis.BodyHoldsLastValues` | agents/handler/agents_for_bedrock.py:21-35 | for an event whose `properties` is a list of well-formed `{name, value}` dicts, the body is present exactly when the list is non-empty, its keys are exactly the names in the list, and each name maps to the value of its last occurrence |
| `Envelope.InferReadsOnlyAgentKey` | agents/handler/agents_for_bedrock.py:8-12 | an event is agent-shaped exactly when it has the key "agent"; changing or removing any other key, the context or the configuration never changes the answer |
| `Envelope.MalformedEnvelopeIsAgentShaped` | agents/handler/agents_for_bedrock.py:9-12 | an event with only "agent" is agent-shaped; its scope then fails with `KeyError('httpMethod')`, wrapping fails with `KeyError('actionGroup')`, and its body is absent |
| `Envelope.ReplyEchoesDispatchedRoute` | agents/handler/agents_for_bedrock.py:38-58 | when wrapping succeeds the scope exists, and the reply echoes the scope's method and path |
| `Envelope.ReplyIgnoresResponseHeaders` | agents/handler/agents_for_bedrock.py:52-64 | the reply depends on the response only through its status and body |
| `MangumCycle.Handle` | agents/app.py:274 | an event is handled by this adapter exactly when it has "agent". The exceptions come in order: from the scope, then from the body, then from wrapping (once scope and body succeed, the result is exactly the wrapping of the application's response). On success the application sees the event's method and path, and the agent receives the application's status and body unchanged |

## Left out

- Mangum itself is not part of this model. That covers choosing among its handlers, its built-in HTTP handlers (the passthrough of plain HTTP events), lifespan, and the ASGI cycle that turns the application's messages into a response. `MangumCycle.Handle` assumes three things. Mangum consults this custom handler before its built-in ones. The cycle reads the scope before the body. The application is a total function.
- The FastAPI application is an arbitrary function. That covers routing, the 404 for unknown routes, pydantic validation and the reservation handlers in `agents/app.py`.
- The Google Calendar calls, the SSM parameter store and the OAuth2 refresh in `agents/app.py` are foreign network I/O.
- The date parsing and time zone handling in `agents/app.py` are left out. They are thin wrappers over date libraries.
- `agents/export_openapi_schema.py` is left out. It only does file I/O.
- `json.dumps` and Mangum's `maybe_encode_body` are left out. The body is the payload before serialisation: a dict, or None for "no body".
  So the bytes sent, the key order in the JSON text (first-insertion order in Python) and a JSON round trip are not modelled.
- Python dict key equality across types is not modelled. In Python, `True`, `1` and `1.0` are the same key. Here the names are compared as JSON values.
- Floating-point numbers are not modelled. `Json.Num` holds integers only.
- For a non-empty dict as `properties`, only the outcome (`TypeError`) is modelled, not the iteration order of its keys.
- Aliasing is not modelled. The scope's `aws.event` is the same dict object as the handler's event; here it is an equal value.
- `__init__` is the datatype constructor `AgentsForBedrock(event, context, config)`. It has no separate member.
- `AgentsForBedrockHandler.AgentsForBedrock.Infer` has no contract of its own. `Envelope.InferReadsOnlyAgentKey` states what it decides.
