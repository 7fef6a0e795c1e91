/** What shape detection, the synthesised scope and the reply envelope
    guarantee about the agent's routing and session fields. */
module Envelope {
  import opened Values
  import opened MangumTypes
  import opened AgentsForBedrockHandler

  /** Shape detection looks at the key "agent" and at nothing else: no other
      key, no value, neither the context nor the configuration. */
  lemma InferReadsOnlyAgentKey(
    event: Event, key: string, v: Json,
    context: LambdaContext, config: LambdaConfig,
    context': LambdaContext, config': LambdaConfig)
    requires key != "agent"
    ensures AgentsForBedrock.Infer(event, context, config) <==> "agent" in event
    ensures AgentsForBedrock.Infer(event[key := v], context', config') == AgentsForBedrock.Infer(event, context, config)
    ensures AgentsForBedrock.Infer(event - {key}, context', config') == AgentsForBedrock.Infer(event, context, config)
    ensures AgentsForBedrock.Infer(event["agent" := v], context', config')
  {
    assert "agent" in event[key := v] <==> "agent" in event;
    assert "agent" in event - {key} <==> "agent" in event;
  }

  /** An event holding only the key "agent" is agent-shaped; reading its
      scope then raises KeyError for "httpMethod", wrapping a response raises
      KeyError for "actionGroup", and its body is absent. */
  lemma MalformedEnvelopeIsAgentShaped(v: Json, context: LambdaContext, config: LambdaConfig, response: Response)
    ensures var event := map["agent" := v];
      && AgentsForBedrock.Infer(event, context, config)
      && AgentsForBedrock(event, context, config).Scope() == Err(KeyError("httpMethod"))
      && AgentsForBedrock(event, context, config).Call(response) == Err(KeyError("actionGroup"))
      && SynthesizedBody(event) == Ok(None)
  {
  }

  /** The reply echoes the very route the application was asked to serve:
      whenever wrapping succeeds the scope could be built, and the reply's
      `apiPath` and `httpMethod` are the scope's path and method. */
  lemma ReplyEchoesDispatchedRoute(handler: AgentsForBedrock, response: Response)
    requires handler.Call(response).Ok?
    ensures handler.Scope().Ok?
    ensures handler.Call(response).value.response.apiPath == handler.Scope().value.path
    ensures handler.Call(response).value.response.httpMethod == handler.Scope().value.httpMethod
  {
    FirstMissingEchoedKey(handler.event);
  }

  /** Wrapping depends on the response only through its status and body:
      the headers are dropped, and two responses that agree on status and
      body give the same reply. */
  lemma ReplyIgnoresResponseHeaders(handler: AgentsForBedrock, response1: Response, response2: Response)
    requires response1.status == response2.status && response1.body == response2.body
    ensures handler.Call(response1) == handler.Call(response2)
  {
  }
}
