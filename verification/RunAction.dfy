/**
 The shared executor registry and `runAction`. What the network answers is an
 oracle of the World, indexed by the call number, so it may differ each time.
 */
module RunAction {
  import opened Options
  import opened Json
  import Template

  datatype HttpReply = Response(status: nat, ok: bool, body: Json) | NoResponse(error: string)
  datatype Delivery = Delivered | Refused(error: string)

  datatype World = World(
    jsonText: Json -> string,          // JSON.stringify
    delaySeconds: Json -> int,         // Number(config.seconds ?? 0), NaN read as 0
    fetch: (Json, nat) -> HttpReply,   // HTTP_REQUEST
    resend: (Json, nat) -> Delivery,   // SEND_EMAIL
    telegram: (Json, nat) -> Delivery, // TELEGRAM_NOTIFY
    log: (Json, nat) -> Option<string> // LOG_MESSAGE: None, or the error thrown while writing
  )

  /** The step output an executor also returns is not part of it: nothing but the run page reads it. */
  datatype ActionResult = Success(enriched: Option<Fields>) | Failure(error: string)

  /** What an executor does: answer, or throw. */
  datatype Call = Answer(result: ActionResult) | Thrown(error: string)

  datatype Executor =
    SendEmailExecutor | HttpRequestExecutor | LogMessageExecutor | DelayExecutor | TelegramNotifyExecutor

  function HttpEnrichment(status: nat, body: Json): Fields {
    map["http" := Obj(map["status" := Num(IndexText(status)), "body" := body])]
  }

  function HttpRequest(world: World, config: Json, now: nat): ActionResult {
    match world.fetch(config, now)
    case NoResponse(error) => Failure("HTTP request failed: " + error)
    case Response(status, ok, body) =>
      if !ok then Failure("HTTP " + IndexText(status))
      else Success(Some(HttpEnrichment(status, body)))
  }

  function Sent(delivery: Delivery): ActionResult {
    match delivery
    case Refused(error) => Failure(error)
    case Delivered => Success(None)
  }

  const REGISTRY: map<string, Executor> := map[
    "SEND_EMAIL" := SendEmailExecutor,
    "HTTP_REQUEST" := HttpRequestExecutor,
    "LOG_MESSAGE" := LogMessageExecutor,
    "DELAY" := DelayExecutor,
    "TELEGRAM_NOTIFY" := TelegramNotifyExecutor
  ]

  function Execute(world: World, executor: Executor, config: Json, now: nat): Call {
    match executor
    case SendEmailExecutor => Answer(Sent(world.resend(config, now)))
    case HttpRequestExecutor => Answer(HttpRequest(world, config, now))
    case TelegramNotifyExecutor => Answer(Sent(world.telegram(config, now)))
    case DelayExecutor => Answer(Success(None))
    case LogMessageExecutor =>
      match world.log(config, now)
      case Some(error) => Thrown(error)
      case None => Answer(Success(None))
  }

  /** One action: an unknown type and a throwing executor are failures like any other. */
  function RunAction(world: World, kind: string, config: Json, payload: Json, now: nat): ActionResult {
    if kind !in REGISTRY then Failure("Unknown action type: " + kind)
    else
      match Execute(world, REGISTRY[kind], Template.InterpolateConfig(config, payload, world.jsonText), now)
      case Answer(result) => result
      case Thrown(error) => Failure(error)
  }

  lemma DelaySucceeds(world: World, config: Json, payload: Json, now: nat)
    ensures RunAction(world, "DELAY", config, payload, now).Success?
  {
  }

  /** `http` is an object of exactly a status, as a number, and a body. */
  ghost predicate IsHttp(http: Json, status: nat, body: Json) {
    && http.Obj? && http.fields.Keys == {"status", "body"}
    && http.fields["status"].Num? && http.fields["status"].text == IndexText(status)
    && http.fields["body"] == body
  }

  /** Only an HTTP step enriches the payload: with its `http` member, the ok response to the interpolated request. */
  lemma OnlyHttpEnriches(world: World, kind: string, config: Json, payload: Json, now: nat)
    ensures
      var r := RunAction(world, kind, config, payload, now);
      r.Success? ==>
        if kind == "HTTP_REQUEST" then
          var reply := world.fetch(Template.InterpolateConfig(config, payload, world.jsonText), now);
          && reply.Response? && reply.ok
          && r.enriched.Some? && r.enriched.value.Keys == {"http"}
          && IsHttp(r.enriched.value["http"], reply.status, reply.body)
        else r.enriched.None?
  {
    assert kind in REGISTRY ==> (REGISTRY[kind] == HttpRequestExecutor <==> kind == "HTTP_REQUEST");
  }

  /**
   When each type of action succeeds, and with what error it fails: by what the
   outside answers to the interpolated config, and never by throwing.
   */
  lemma ActionOutcome(world: World, kind: string, config: Json, payload: Json, now: nat)
    ensures
      var r := RunAction(world, kind, config, payload, now);
      var resolved := Template.InterpolateConfig(config, payload, world.jsonText);
      if kind == "HTTP_REQUEST" then
        match world.fetch(resolved, now)
        case Response(status, ok, _) => if ok then r.Success? else r == Failure("HTTP " + IndexText(status))
        case NoResponse(error) => r == Failure("HTTP request failed: " + error)
      else if kind == "SEND_EMAIL" then
        match world.resend(resolved, now)
        case Delivered => r.Success?
        case Refused(error) => r == Failure(error)
      else if kind == "TELEGRAM_NOTIFY" then
        match world.telegram(resolved, now)
        case Delivered => r.Success?
        case Refused(error) => r == Failure(error)
      else if kind == "LOG_MESSAGE" then
        match world.log(resolved, now)
        case None => r.Success?
        case Some(error) => r == Failure(error)
      else if kind == "DELAY" then r.Success?
      else r == Failure("Unknown action type: " + kind)
  {
    hide Template.InterpolateConfig;
  }

  /** Templates are resolved before any executor runs: an action sees of the payload only what its config mentions. */
  lemma ResultDependsOnMentionedPaths(world: World, kind: string, config: Json, p: Json, q: Json, now: nat)
    requires Template.ShowSame(config, p, q, world.jsonText)
    ensures RunAction(world, kind, config, p, now) == RunAction(world, kind, config, q, now)
  {
    Template.ConfigDependsOnMentionedPaths(config, p, q, world.jsonText);
  }
}
