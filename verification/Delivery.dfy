/** The pure decisions of the delivery path: the fenced settle planner, the expiry
    sweeper and the retry schedule. Instants and durations are nanoseconds; stored
    deadlines are unix milliseconds, as in the deliveries table. */
module Delivery {
  import opened Common

  const NANOS_PER_MS: int := 1_000_000
  const MAX_NAK_DELAY: int := 24 * 3600 * 1000 * NANOS_PER_MS

  /** `time.Duration.Milliseconds`: truncates toward zero. */
  function Millis(d: int): int {
    if d >= 0 then d / NANOS_PER_MS else -((-d) / NANOS_PER_MS)
  }

  /** `time.Time.UnixMilli`: rounds toward the past. */
  function UnixMilli(t: int): int {
    t / NANOS_PER_MS
  }

  datatype RowState = Ready | Inflight

  /** One row of the deliveries table. `deliveredAt` is 0 when never claimed. */
  datatype Row = Row(state: RowState, attempts: int, visibleAt: int, deliveredAt: int, generation: int)

  /** The fields of an ack token that the fence reads (stream and consumer are fixed). */
  datatype Token = Token(seqNo: int, attempt: int, generation: int)

  datatype Config = Config(ackWait: int, maxDeliver: int, backoff: seq<int>, maxAckPending: int)

  /** The scheduling seam. A nil jitter in the source is the identity here. */
  type Jitter = int -> int

  datatype Verb = AckVerb | NakVerb | TermVerb | ExtendVerb | OtherVerb
  datatype Status = OK | Stale | StaleAck | WrongGen | Unknown
  datatype Cause = NoCause | MaxDeliver | Terminated
  datatype Reason = NoReason | GenerationMismatch | FutureAttempt | NotInflight

  datatype Action =
    | Noop
    | Remove(late: bool, heldMs: int)
    | Release(visibleAt: int)
    | Prolong(visibleAt: int)
    | Dead(cause: Cause)

  datatype Plan =
    | Plan(status: Status, action: Action, reason: Reason, currentAttempt: int)
    | BadRequest

  datatype NakDelay = Scheduled | Explicit(delay: int)

  /** Everything one settle item brings to the planner. */
  datatype Request = Request(
    verb: Verb, token: Token, generation: int, cursor: int, cfg: Config, maxAckWait: int,
    row: Option<Row>, nak: NakDelay)

  function BackoffFor(backoff: seq<int>, attempt: int): int {
    if |backoff| == 0 then 0
    else if attempt - 1 < 0 then backoff[0]
    else if attempt - 1 >= |backoff| then backoff[|backoff| - 1]
    else backoff[attempt - 1]
  }

  function ReleaseDelay(cfg: Config, attempt: int, nak: NakDelay, j: Jitter): Option<int> {
    match nak
    case Explicit(d) => if d < 0 || d > MAX_NAK_DELAY then None else Some(d)
    case Scheduled => Some(j(BackoffFor(cfg.backoff, attempt)))
  }

  function PlanSettle(req: Request, j: Jitter, now: int): Plan {
    if req.token.generation != req.generation then
      Plan(WrongGen, Noop, GenerationMismatch, 0)
    else if req.row.None? then
      if req.token.seqNo < req.cursor then Plan(Stale, Noop, NoReason, 0)
      else Plan(Unknown, Noop, NoReason, 0)
    else
      var row := req.row.value;
      if req.token.attempt != row.attempts then
        Plan(StaleAck, Noop, if req.token.attempt > row.attempts then FutureAttempt else NoReason, row.attempts)
      else
        match req.verb
        case AckVerb => PlanAck(row, now)
        case NakVerb => PlanNak(req, row, j, now)
        case TermVerb => Plan(OK, Dead(Terminated), NoReason, 0)
        case ExtendVerb => PlanExtend(req, row, now)
        case OtherVerb => BadRequest
  }

  function PlanAck(row: Row, now: int): Plan {
    var held := if row.deliveredAt != 0 then UnixMilli(now) - row.deliveredAt else 0;
    Plan(OK, Remove(row.state == Ready, held), NoReason, 0)
  }

  function PlanNak(req: Request, row: Row, j: Jitter, now: int): Plan {
    match ReleaseDelay(req.cfg, row.attempts, req.nak, j)
    case None => BadRequest
    case Some(delay) =>
      var exhausted := req.cfg.maxDeliver > 0 && row.attempts >= req.cfg.maxDeliver;
      if row.state == Inflight && exhausted then
        Plan(OK, Dead(MaxDeliver), NoReason, 0)
      else
        var computed := UnixMilli(now + delay);
        var at := if row.state == Ready && computed > row.visibleAt then row.visibleAt else computed;
        Plan(OK, Release(at), NoReason, 0)
  }

  function PlanExtend(req: Request, row: Row, now: int): Plan {
    if row.state != Inflight then
      Plan(StaleAck, Noop, NotInflight, row.attempts)
    else
      var base := if row.visibleAt < UnixMilli(now) then UnixMilli(now) else row.visibleAt;
      var deadline := base + Millis(req.cfg.ackWait);
      if deadline > row.deliveredAt + Millis(req.maxAckWait) then BadRequest
      else Plan(OK, Prolong(deadline), NoReason, 0)
  }

  datatype SweepTrigger = AckWaitTrigger | PolicyLowered
  datatype SweepDecision =
    | SkipNotExpired
    | SkipGeneration
    | SweepDead(trigger: SweepTrigger)
    | Redeliver(visibleAt: int)

  /** `nowMs` is the sweep command's batch clock; `generation` the consumer's live one. */
  function DecideSweep(row: Row, cfg: Config, generation: int, nowMs: int, j: Jitter): SweepDecision {
    if row.visibleAt > nowMs then SkipNotExpired
    else if row.generation != generation then SkipGeneration
    else if cfg.maxDeliver > 0 && row.attempts >= cfg.maxDeliver then
      SweepDead(if row.attempts > cfg.maxDeliver then PolicyLowered else AckWaitTrigger)
    else Redeliver(nowMs + Millis(j(BackoffFor(cfg.backoff, row.attempts))))
  }
}
