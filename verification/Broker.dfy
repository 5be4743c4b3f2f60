/** One stream with one consumer, as the writer's commands change them. Every command
    runs alone in the single writer, so a run is a sequence of atomic steps. Subjects
    appear only as whether they match the consumer's filters, which stay fixed. */
module Broker {
  import opened Common
  import opened Delivery
  import opened Ordered

  /** A stored message; `wanted` is whether its subject matches the filters. */
  datatype Msg = Msg(wanted: bool, size: nat)

  /** The tables, then the history that the theorems speak about:
      `epoch` counts seeks; `base` is where the current epoch's cursor started, and `since`
      how many tokens had been minted by then;
      `claimed` and `finished` are the seqs claimed and terminally removed in this epoch;
      `minted` lists every ack token handed out; `removals` every terminal removal. */
  datatype State = State(
    next: int, msgs: map<int, Msg>,
    cursor: int, generation: int, cfg: Config, maxAckWait: int, rows: map<int, Row>,
    epoch: nat, base: int, since: nat, claimed: set<int>, finished: set<int>,
    minted: seq<Token>, removals: seq<(int, nat)>)

  // ---- fetch: top-up (T1) and claim (T2) ----------------------------------------

  function FreshRow(generation: int): Row {
    Row(Ready, 0, 0, 0, generation)
  }

  /** `SELECT seq FROM messages WHERE seq >= cursor ORDER BY seq LIMIT limit`. */
  ghost function ScanFrom(msgs: map<int, Msg>, cursor: int, limit: nat): (scan: seq<int>)
    ensures Increasing(scan) && |scan| <= limit
    ensures Within(scan, set m | m in msgs && m >= cursor)
  {
    var all := Ascending(set m | m in msgs && m >= cursor);
    if |all| <= limit then all else all[..limit]
  }

  /** `stop` is the index of the message that flow control declined, or |scan|. */
  datatype Admission = Admission(rows: map<int, Row>, stop: nat)

  function Admit(scan: seq<int>, at: nat, msgs: map<int, Msg>, rows: map<int, Row>, bound: int,
                 generation: int): Admission
    requires at <= |scan| && Within(scan, msgs.Keys)
    decreases |scan| - at
  {
    if at == |scan| then Admission(rows, at)
    else if !msgs[scan[at]].wanted then Admit(scan, at + 1, msgs, rows, bound, generation)
    else if |rows| >= bound then Admission(rows, at)
    else
      var rows' := if scan[at] in rows then rows else rows[scan[at] := FreshRow(generation)];
      Admit(scan, at + 1, msgs, rows', bound, generation)
  }

  /** The cursor rule: stop at a declined match, just past a full scan, else at the head. */
  function NextCursor(scan: seq<int>, stop: nat, limit: nat, cursor: int, next: int): int
    requires stop <= |scan|
  {
    var c := if stop < |scan| then scan[stop]
             else if |scan| == limit then (if limit == 0 then 1 else scan[limit - 1] + 1)
             else next;
    if c < cursor then cursor else c
  }

  ghost function TopUp(s: State, limit: nat): State {
    var scan := ScanFrom(s.msgs, s.cursor, limit);
    var a := Admit(scan, 0, s.msgs, s.rows, s.cfg.maxAckPending, s.generation);
    AdmitStops(scan, 0, s.msgs, s.rows, s.cfg.maxAckPending, s.generation);
    s.(rows := a.rows, cursor := NextCursor(scan, a.stop, limit, s.cursor, s.next))
  }

  lemma AdmitStops(scan: seq<int>, at: nat, msgs: map<int, Msg>, rows: map<int, Row>, bound: int, generation: int)
    requires at <= |scan| && Within(scan, msgs.Keys)
    ensures at <= Admit(scan, at, msgs, rows, bound, generation).stop <= |scan|
    decreases |scan| - at
  {
  }

  function Claimable(s: State, nowMs: int): set<int> {
    set q | q in s.rows && q in s.msgs && s.rows[q].state == Ready && s.rows[q].visibleAt <= nowMs
  }

  ghost function Candidates(s: State, nowMs: int, batch: nat): (c: seq<int>)
    ensures Increasing(c) && |c| <= batch
    ensures Within(c, Claimable(s, nowMs))
  {
    var all := Ascending(Claimable(s, nowMs));
    if |all| <= batch then all else all[..batch]
  }

  /** How many candidates fit the byte budget, never refusing the first. */
  function Fit(sizes: seq<nat>, at: nat, used: int, maxBytes: int): (k: nat)
    requires at <= |sizes|
    ensures at <= k <= |sizes|
    decreases |sizes| - at
  {
    if at == |sizes| then at
    else if at > 0 && used + sizes[at] > maxBytes then at
    else Fit(sizes, at + 1, used + sizes[at], maxBytes)
  }

  function Sizes(s: State, seqs: seq<int>): seq<nat>
    requires Within(seqs, s.msgs.Keys)
  {
    seq(|seqs|, i requires 0 <= i < |seqs| => s.msgs[seqs[i]].size)
  }

  ghost function Chosen(s: State, nowMs: int, batch: nat, maxBytes: int): (chosen: seq<int>)
    ensures Within(chosen, s.rows.Keys) && Within(chosen, Claimable(s, nowMs)) && Increasing(chosen)
  {
    var c := Candidates(s, nowMs, batch);
    c[..Fit(Sizes(s, c), 0, 0, maxBytes)]
  }

  function ClaimRow(row: Row, nowMs: int, ackWaitMs: int): Row {
    Row(Inflight, row.attempts + 1, nowMs + ackWaitMs, nowMs, row.generation)
  }

  /** The tokens minted for a claim carry the post-increment attempt. */
  function TokensFor(rows: map<int, Row>, chosen: seq<int>, generation: int): seq<Token>
    requires Within(chosen, rows.Keys)
  {
    seq(|chosen|, i requires 0 <= i < |chosen| => Token(chosen[i], rows[chosen[i]].attempts + 1, generation))
  }

  function Claim(s: State, chosen: seq<int>, nowMs: int): State
    requires Within(chosen, s.rows.Keys)
  {
    s.(rows := map q | q in s.rows :: if q in Elements(chosen) then ClaimRow(s.rows[q], nowMs, Millis(s.cfg.ackWait))
                                      else s.rows[q],
       claimed := s.claimed + Elements(chosen),
       minted := s.minted + TokensFor(s.rows, chosen, s.generation))
  }

  /** One fetch command: top up unless flow control is at its bound, then claim. */
  ghost function FetchStep(s: State, now: int, batch: nat, maxBytes: int, limit: nat): State {
    var s1 := if |s.rows| >= s.cfg.maxAckPending then s else TopUp(s, limit);
    Claim(s1, Chosen(s1, UnixMilli(now), batch, maxBytes), UnixMilli(now))
  }

  // ---- settle, sweep, retire ----------------------------------------------------

  function WithRow(s: State, q: int, row: Row): State {
    s.(rows := s.rows[q := row])
  }

  /** Terminal removal: the delivery row goes and the removal is recorded. */
  function Finish(s: State, q: int): State {
    s.(rows := s.rows - {q}, finished := s.finished + {q}, removals := s.removals + [(q, s.epoch)])
  }

  function RowOf(s: State, q: int): Option<Row> {
    if q in s.rows then Some(s.rows[q]) else None
  }

  function SettlePlan(s: State, token: Token, verb: Verb, nak: NakDelay, j: Jitter, now: int): Plan {
    PlanSettle(Request(verb, token, s.generation, s.cursor, s.cfg, s.maxAckWait, RowOf(s, token.seqNo), nak), j, now)
  }

  /** What the settle command does: its state, or an abort that rolls the batch back.
      Every mutating statement repeats the fence in SQL (attempts and generation of the
      row) and an OK plan that changes no row aborts the whole batch. */
  datatype Settled = Done(s: State) | Abort

  function ApplySettle(s: State, token: Token, plan: Plan, sinkAccepts: bool): Settled {
    if plan.BadRequest? || plan.action.Noop? then Done(s)
    else if plan.action.Dead? && !sinkAccepts then Abort
    else if !(token.seqNo in s.rows && s.rows[token.seqNo].attempts == token.attempt
              && s.rows[token.seqNo].generation == token.generation) then Abort
    else
      var row := s.rows[token.seqNo];
      match plan.action
      case Remove(_, _) => Done(Finish(s, token.seqNo))
      case Dead(_) => Done(Finish(s, token.seqNo))
      case Release(at) => Done(WithRow(s, token.seqNo, row.(state := Ready, visibleAt := at)))
      case Prolong(at) =>
        if row.state == Inflight then Done(WithRow(s, token.seqNo, row.(visibleAt := at))) else Abort
  }

  function SettleResult(s: State, token: Token, verb: Verb, nak: NakDelay, j: Jitter, now: int, sinkAccepts: bool): Settled {
    ApplySettle(s, token, SettlePlan(s, token, verb, nak, j, now), sinkAccepts)
  }

  function SettleStep(s: State, token: Token, verb: Verb, nak: NakDelay, j: Jitter, now: int, sinkAccepts: bool): State {
    match SettleResult(s, token, verb, nak, j, now, sinkAccepts)
    case Done(s') => s'
    case Abort => s
  }

  /** One row of the expiry sweep; only expired INFLIGHT rows are scanned. */
  function SweepStep(s: State, q: int, nowMs: int, j: Jitter, sinkAccepts: bool): State {
    if q !in s.rows || s.rows[q].state != Inflight || s.rows[q].visibleAt > nowMs then s
    else
      match DecideSweep(s.rows[q], s.cfg, s.generation, nowMs, j)
      case SkipNotExpired => s
      case SkipGeneration => s
      case SweepDead(_) => if sinkAccepts then Finish(s, q) else s
      case Redeliver(at) => WithRow(s, q, s.rows[q].(state := Ready, visibleAt := at))
  }

  /** One row of the retirement pass over READY rows stranded above max_deliver. */
  function RetireStep(s: State, q: int, sinkAccepts: bool): State {
    if q in s.rows && s.rows[q].state == Ready && s.cfg.maxDeliver > 0
       && s.rows[q].attempts >= s.cfg.maxDeliver && s.rows[q].generation == s.generation && sinkAccepts
    then Finish(s, q) else s
  }

  // ---- shrink, seek, purge, retention -------------------------------------------

  function Droppable(rows: map<int, Row>): set<int> {
    set q | q in rows && rows[q].state == Ready && rows[q].attempts == 0
  }

  /** The rewind target: the lowest of the `dropped` highest droppable rows, looked up
      by its offset in ascending order. */
  ghost function RewindTarget(rows: map<int, Row>, dropped: nat): (lowest: int)
    requires 0 < dropped <= |Droppable(rows)|
    ensures lowest in Droppable(rows)
    ensures |AtOrAbove(Droppable(rows), lowest)| == dropped
  {
    CountAbove(Ascending(Droppable(rows)), Droppable(rows), dropped);
    AtOffset(Droppable(rows), |Droppable(rows)| - dropped)
  }

  datatype Shrunk = Shrunk(rows: map<int, Row>, cursor: int, overshoot: int)

  /** What lowering max_ack_pending to `bound` leaves: see `Shrink` for the statements. */
  ghost function ShrinkTo(rows: map<int, Row>, cursor: int, bound: int): Shrunk {
    var excess := |rows| - bound;
    var droppable := |Droppable(rows)|;
    var dropped := if excess > droppable then droppable else excess;
    if excess <= 0 then Shrunk(rows, cursor, 0)
    else if dropped == 0 then Shrunk(rows, cursor, excess)
    else
      var lowest := RewindTarget(rows, dropped);
      Shrunk(rows - AtOrAbove(Droppable(rows), lowest), lowest, excess - dropped)
  }

  ghost function UpdateStep(s: State, cfg: Config): State {
    if cfg.maxAckPending < s.cfg.maxAckPending then
      var r := ShrinkTo(s.rows, s.cursor, cfg.maxAckPending);
      s.(rows := r.rows, cursor := r.cursor, cfg := cfg)
    else s.(cfg := cfg)
  }

  function SeekStep(s: State, target: int): State {
    s.(rows := map[], cursor := target, generation := s.generation + 1,
       epoch := s.epoch + 1, base := target, since := |s.minted|, claimed := {}, finished := {})
  }

  /** The purge's effect on one consumer: rows of deleted messages go, the generation
      is bumped if any went, and rows of surviving messages stay as they are. */
  function DropMessages(s: State, gone: set<int>): State {
    s.(msgs := s.msgs - gone, rows := s.rows - gone,
       generation := if exists q :: q in s.rows && q in gone then s.generation + 1 else s.generation)
  }

  function PurgeBound(s: State, upTo: int): int {
    if upTo < s.next - 1 then upTo else s.next - 1
  }

  function UpTo(s: State, upper: int): set<int> {
    (set m | m in s.msgs && m <= upper) + (set q | q in s.rows && q <= upper)
  }

  function ClampCursor(s: State, c: int): State {
    s.(cursor := if s.cursor < c then c else s.cursor)
  }

  /** Unfiltered purge up to and including a seq; the cursor clamps forward only. */
  function PurgeRangeStep(s: State, upTo: int): State {
    var upper := PurgeBound(s, upTo);
    if forall m | m in s.msgs :: m > upper then s
    else ClampCursor(DropMessages(s, UpTo(s, upper)), upper + 1)
  }

  /** Filtered or keep-newest purge of chosen messages; no cursor clamp. */
  function PurgeVictimsStep(s: State, victims: set<int>): State {
    if victims == {} then s else DropMessages(s, victims)
  }

  /** The guarded retention delete: rows pin their messages. */
  function EvictStep(s: State, seqs: set<int>): State {
    s.(msgs := s.msgs - (set q | q in seqs && q !in s.rows))
  }

  function PublishStep(s: State, m: Msg): State {
    s.(msgs := s.msgs[s.next := m], next := s.next + 1)
  }

  // ---- runs ---------------------------------------------------------------------

  datatype Step =
    | Publish(m: Msg)
    | Fetch(now: int, batch: nat, maxBytes: int, limit: nat)
    | Settle(token: Token, verb: Verb, nak: NakDelay, j: Jitter, at: int, sinkAccepts: bool)
    | Sweep(q: int, nowMs: int, j: Jitter, sinkAccepts: bool)
    | Retire(q: int, sinkAccepts: bool)
    | Update(cfg: Config)
    | Seek(target: int)
    | PurgeRange(upTo: int)
    | PurgeVictims(victims: set<int>)
    | Evict(seqs: set<int>)

  predicate ValidConfig(cfg: Config, maxAckWait: int) {
    0 <= cfg.ackWait <= maxAckWait && 0 <= cfg.maxDeliver && 1 <= cfg.maxAckPending
  }

  const MS: int := NANOS_PER_MS
  const MIN_ACK_WAIT: int := 100 * MS

  /** What the validator accepts under the default limits, `maxAckWait` apart. */
  predicate Accepted(cfg: Config, maxAckWait: int) {
    && MIN_ACK_WAIT <= cfg.ackWait <= maxAckWait && 0 <= cfg.maxDeliver <= 1000 && 1 <= cfg.maxAckPending <= 1_000_000
    && 1 <= |cfg.backoff| <= 16 && forall i | 0 <= i < |cfg.backoff| :: 0 <= cfg.backoff[i] <= MAX_NAK_DELAY
  }

  /** What the callers of each command guarantee: parsed tokens have attempt >= 1, stored
      configurations passed validation, resolved seek targets lie in the stream's range,
      victims are live messages, and the fetch clock is not before 1970. */
  predicate Enabled(s: State, step: Step) {
    match step
    case Fetch(now, batch, _, limit) => now >= 0 && batch >= 1 && limit >= 1
    case Settle(token, _, _, _, _, _) => token.attempt >= 1
    case Update(cfg) => ValidConfig(cfg, s.maxAckWait)
    case Seek(target) => 1 <= target <= s.next
    case PurgeVictims(victims) => victims <= s.msgs.Keys
    case _ => true
  }

  ghost function Next(s: State, step: Step): State {
    match step
    case Publish(m) => PublishStep(s, m)
    case Fetch(now, batch, maxBytes, limit) => FetchStep(s, now, batch, maxBytes, limit)
    case Settle(token, verb, nak, j, at, sink) => SettleStep(s, token, verb, nak, j, at, sink)
    case Sweep(q, nowMs, j, sink) => SweepStep(s, q, nowMs, j, sink)
    case Retire(q, sink) => RetireStep(s, q, sink)
    case Update(cfg) => UpdateStep(s, cfg)
    case Seek(target) => SeekStep(s, target)
    case PurgeRange(upTo) => PurgeRangeStep(s, upTo)
    case PurgeVictims(victims) => PurgeVictimsStep(s, victims)
    case Evict(seqs) => EvictStep(s, seqs)
  }

  /** A consumer just created at `cursor` on a stream that already holds messages. */
  ghost predicate Initial(s: State) {
    && 1 <= s.cursor <= s.next && s.base == s.cursor && s.generation == 1 && s.epoch == 0
    && (forall m | m in s.msgs :: 1 <= m < s.next)
    && ValidConfig(s.cfg, s.maxAckWait)
    && s.rows == map[] && s.claimed == {} && s.finished == {} && s.minted == [] && s.removals == [] && s.since == 0
  }

  /** The i-th step of a run. */
  ghost predicate Follows(trace: seq<State>, steps: seq<Step>, i: nat)
    requires i < |steps| && |trace| == |steps| + 1
  {
    Enabled(trace[i], steps[i]) && trace[i + 1] == Next(trace[i], steps[i])
  }

  /** `trace` holds the states of a run whose steps are `steps`. */
  ghost predicate Run(trace: seq<State>, steps: seq<Step>) {
    && |trace| == |steps| + 1
    && Initial(trace[0])
    && forall i | 0 <= i < |steps| :: Follows(trace, steps, i)
  }
}
