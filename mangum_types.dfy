/** The Mangum types the handler consumes and produces. */
module MangumTypes {
  import opened Values

  newtype byte = x: int | 0 <= x < 256

  type Bytes = seq<byte>

  /** The Lambda runtime's context object: opaque to the handler, only passed on. */
  type LambdaContext(==)

  /** Mangum's configuration: the handler stores it and never reads it. */
  type LambdaConfig

  datatype Asgi = Asgi(version: string, specVersion: string)

  /** The ASGI HTTP connection scope handed to the web application. */
  datatype Scope = Scope(
    scopeType: string,
    httpMethod: Json,
    httpVersion: string,
    headers: seq<(Bytes, Bytes)>,
    path: Json,
    scheme: string,
    queryString: Option<Bytes>,
    asgi: Asgi,
    awsEvent: Event,
    awsContext: LambdaContext)

  /** The HTTP response the web application produced. */
  datatype Response = Response(status: int, headers: seq<(Bytes, Bytes)>, body: Bytes)
}
