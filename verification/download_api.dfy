/**
 * The server's `POST plugin/download` handler: checks the caller's API key
 * against the configured one, checks the client key in the body, asks the
 * packager for a plugin, and maps every failure to an HTTP error.
 */
module DownloadApi {
  import opened Optional

  /** What a call may throw: the two expected HTTP errors, or anything else. */
  datatype Thrown = Unauthorized(message: string) | BadRequest(message: string) | Internal(message: string)

  /** What the packager did for the client key. */
  datatype Generated = Url(url: string) | Threw(error: Thrown)

  /** The handler's answer: `{url}`, or an HTTP error. */
  datatype Response = Ok(url: string) | Error(status: nat, message: string)

  const MissingApiKey := "API key is required"
  const InvalidApiKey := "Invalid API key"
  const MissingClientKey := "Client API key is required"
  const GenerateFailed := "Failed to generate plugin"

  /** A header or body field that JavaScript treats as false: absent or "". */
  predicate Falsy(v: Option<string>) {
    v.None? || v.value == ""
  }

  /** The HTTP response an exception becomes. */
  function StatusOf(e: Thrown): (r: Response)
    ensures r.Error?
    ensures e.Unauthorized? ==> r == Error(401, e.message)
    ensures e.BadRequest? ==> r == Error(400, e.message)
    ensures e.Internal? ==> r == Error(500, e.message)
  {
    match e
    case Unauthorized(m) => Error(401, m)
    case BadRequest(m) => Error(400, m)
    case Internal(m) => Error(500, m)
  }

  /** The catch block: 401 and 400 pass through, anything else becomes a 500 with a fixed message. */
  function Rethrow(e: Thrown): (r: Thrown)
    ensures e.Unauthorized? || e.BadRequest? ==> r == e
    ensures e.Internal? ==> r == Internal(GenerateFailed)
  {
    if e.Unauthorized? || e.BadRequest? then e else Internal(GenerateFailed)
  }

  /** The body of the try block: the checks in order, then the packager. */
  function Attempt(apiKey: Option<string>, configured: Option<string>, clientKey: Option<string>,
                   generate: string -> Generated): Generated
  {
    if Falsy(apiKey) then Threw(Unauthorized(MissingApiKey))
    else if configured != apiKey then Threw(Unauthorized(InvalidApiKey))
    else if Falsy(clientKey) then Threw(BadRequest(MissingClientKey))
    else generate(clientKey.value)
  }

  /**
   * `downloadPlugin`. `apiKey` is the `x-api-key` header, `configured` the
   * `API_KEY` setting, `clientKey` the body's `client_api_key`, and
   * `generate` the packager.
   */
  function DownloadPlugin(apiKey: Option<string>, configured: Option<string>, clientKey: Option<string>,
                          generate: string -> Generated): (r: Response)
    ensures Falsy(apiKey) ==> r == Error(401, MissingApiKey)
    ensures !Falsy(apiKey) && configured != apiKey ==> r == Error(401, InvalidApiKey)
    ensures !Falsy(apiKey) && configured == apiKey && Falsy(clientKey) ==> r == Error(400, MissingClientKey)
    ensures r.Ok? <==> (!Falsy(apiKey) && configured == apiKey && !Falsy(clientKey) && generate(clientKey.value).Url?)
    ensures r.Ok? ==> r.url == generate(clientKey.value).url
    ensures r.Error? && r.status == 500 ==> r.message == GenerateFailed
  {
    match Attempt(apiKey, configured, clientKey, generate)
    case Url(u) => Ok(u)
    case Threw(e) => StatusOf(Rethrow(e))
  }

  // ---------------------------------------------------------------------
  // Properties.

  /** With no `API_KEY` configured every request is refused with a 401, whatever it carries. */
  lemma UnconfiguredRejectsAll(apiKey: Option<string>, clientKey: Option<string>, generate: string -> Generated)
    ensures DownloadPlugin(apiKey, None, clientKey, generate).Error?
    ensures DownloadPlugin(apiKey, None, clientKey, generate).status == 401
  {
  }

  /** A 400 is only ever given to a caller whose API key was accepted. */
  lemma BadRequestOnlyAfterKey(apiKey: Option<string>, configured: Option<string>, clientKey: Option<string>,
                               generate: string -> Generated)
    requires DownloadPlugin(apiKey, configured, clientKey, generate).Error?
    requires DownloadPlugin(apiKey, configured, clientKey, generate).status == 400
    ensures !Falsy(apiKey) && configured == apiKey
  {
  }

  /** The packager is never asked for a plugin unless both keys passed: a request failing a check answers the same whatever the packager would do. */
  lemma ChecksBeforeGenerate(apiKey: Option<string>, configured: Option<string>, clientKey: Option<string>,
                             g1: string -> Generated, g2: string -> Generated)
    requires Falsy(apiKey) || configured != apiKey || Falsy(clientKey)
    ensures DownloadPlugin(apiKey, configured, clientKey, g1) == DownloadPlugin(apiKey, configured, clientKey, g2)
  {
  }

  /** Every failure of the packager that is not a 401 or a 400 reaches the caller as a 500 with the fixed message. */
  lemma PackagerFailureIs500(key: string, clientKey: string, generate: string -> Generated)
    requires key != "" && clientKey != ""
    requires generate(clientKey).Threw? && generate(clientKey).error.Internal?
    ensures DownloadPlugin(Some(key), Some(key), Some(clientKey), generate) == Error(500, GenerateFailed)
  {
  }

  /** The statuses the handler can answer with. */
  lemma StatusesAreKnown(apiKey: Option<string>, configured: Option<string>, clientKey: Option<string>,
                         generate: string -> Generated)
    ensures DownloadPlugin(apiKey, configured, clientKey, generate).Error? ==>
      DownloadPlugin(apiKey, configured, clientKey, generate).status in {400, 401, 500}
  {
  }
}
