/** One Lambda invocation through Mangum with the agent handler registered:
    detect the shape, build the scope and the body, let the web application
    answer, wrap its answer. The web application (routing, validation, the
    reservation handlers) is an arbitrary function here. */
module MangumCycle {
  import opened Values
  import opened MangumTypes
  import opened AgentsForBedrockHandler

  /** The web application: answers a request given its scope and body. */
  type App = (MangumTypes.Scope, Option<Items>) -> Response

  /** Handles one event. None means the event is not agent-shaped and is left
      to Mangum's other handlers; otherwise the reply or the exception raised. */
  method Handle(event: Event, context: LambdaContext, config: LambdaConfig, app: App)
    returns (r: Option<Result<AgentReply>>)
    ensures r.None? <==> "agent" !in event
    ensures var handler := AgentsForBedrock(event, context, config);
      r.Some? ==> (r.value.Ok? <==>
        handler.Scope().Ok? && SynthesizedBody(event).Ok? && FirstMissing(EchoedKeys, event).None?)
    ensures var handler := AgentsForBedrock(event, context, config);
      r.Some? && handler.Scope().Err? ==> r.value == Err(handler.Scope().error)
    ensures var handler := AgentsForBedrock(event, context, config);
      r.Some? && handler.Scope().Ok? && SynthesizedBody(event).Err? ==> r.value == Err(SynthesizedBody(event).error)
    ensures var handler := AgentsForBedrock(event, context, config);
      r.Some? && handler.Scope().Ok? && SynthesizedBody(event).Ok? ==>
        r.value == handler.Call(app(handler.Scope().value, SynthesizedBody(event).value))
    ensures var handler := AgentsForBedrock(event, context, config);
      r.Some? && r.value.Ok? ==>
        var scope := handler.Scope().value;
        var response := app(scope, SynthesizedBody(event).value);
        && r.value == handler.Call(response)
        && scope.httpMethod == event["httpMethod"]
        && scope.path == event["apiPath"]
        && r.value.value.response.httpStatusCode == response.status
        && r.value.value.response.responseBody["application/json"]["body"] == response.body
  {
    if !AgentsForBedrock.Infer(event, context, config) {
      return None;
    }
    var handler := AgentsForBedrock(event, context, config);
    var scope := handler.Scope();
    if scope.Err? {
      return Some(Err(scope.error));
    }
    var body := handler.Body();
    if body.Err? {
      return Some(Err(body.error));
    }
    var response := app(scope.value, body.value);
    r := Some(handler.Call(response));
    FirstMissingEchoedKey(event);
  }
}
