/** What settling and sweeping do to a row, said with the schedule's own entries and the
    clock, and what each answer tells the worker. */
module Settlement {
  import opened Delivery
  import opened Broker
  import opened BrokerInvariant

  // ---- clocks -------------------------------------------------------------------

  /** Milliseconds of an instant round down, those of a duration toward zero. */
  lemma Rounding(t: int)
    ensures 0 <= t - UnixMilli(t) * 1_000_000 < 1_000_000
    ensures t >= 0 ==> 0 <= t - Millis(t) * 1_000_000 < 1_000_000
    ensures t <= 0 ==> 0 <= Millis(t) * 1_000_000 - t < 1_000_000
  {
  }

  // ---- retries ------------------------------------------------------------------

  /** `d` is what the schedule says to wait after failure `a`: its a-th entry, the last one
      past its end, nothing if it is empty. */
  predicate ScheduledWait(backoff: seq<int>, a: int, d: int)
    requires a >= 1
  {
    if |backoff| == 0 then d == 0
    else if a <= |backoff| then d == backoff[a - 1]
    else d == backoff[|backoff| - 1]
  }

  /** A delivered row of this generation; a lease among them has attempts left. */
  predicate CanRetry(s: State, q: int) {
    && q in s.rows && s.rows[q].attempts >= 1 && s.rows[q].generation == s.generation
    && (s.rows[q].state == Inflight ==> s.cfg.maxDeliver <= 0 || s.rows[q].attempts < s.cfg.maxDeliver)
  }

  function TokenOf(s: State, q: int): Token
    requires q in s.rows
  {
    Token(q, s.rows[q].attempts, s.generation)
  }

  /** The row made ready at `at`, and nothing else moved. */
  function ReadyAt(s: State, q: int, at: int): State
    requires q in s.rows
  {
    s.(rows := s.rows[q := Row(Ready, s.rows[q].attempts, at, s.rows[q].deliveredAt, s.rows[q].generation)])
  }

  /** A nak without a delay waits out the schedule's entry for the attempt, jittered; on a
      row already released it only ever pulls it in. */
  lemma NakWaits(s: State, q: int, j: Jitter, now: int, sink: bool, d: int)
    requires CanRetry(s, q) && ScheduledWait(s.cfg.backoff, s.rows[q].attempts, d)
    ensures var t := SettleStep(s, TokenOf(s, q), NakVerb, Scheduled, j, now, sink);
            var due := UnixMilli(now + j(d));
            && (s.rows[q].state == Inflight ==> t == ReadyAt(s, q, due))
            && (s.rows[q].state == Ready ==>
                  t == ReadyAt(s, q, if due < s.rows[q].visibleAt then due else s.rows[q].visibleAt))
  {
  }

  /** An explicit delay replaces the schedule, unjittered, and one out of range is refused. */
  lemma ExplicitNakWaits(s: State, q: int, j: Jitter, now: int, sink: bool, d: int)
    requires CanRetry(s, q)
    ensures var t := SettleStep(s, TokenOf(s, q), NakVerb, Explicit(d), j, now, sink);
            var due := UnixMilli(now + d);
            if d < 0 || d > 24 * 3600 * 1000 * 1_000_000 then t == s
            else if s.rows[q].state == Inflight then t == ReadyAt(s, q, due)
            else t == ReadyAt(s, q, if due < s.rows[q].visibleAt then due else s.rows[q].visibleAt)
  {
  }

  /** A sweep of an expired lease waits out the same entry, counted from its own clock. */
  lemma SweepWaits(s: State, q: int, nowMs: int, j: Jitter, sink: bool, d: int)
    requires CanRetry(s, q) && s.rows[q].state == Inflight && s.rows[q].visibleAt <= nowMs
    requires ScheduledWait(s.cfg.backoff, s.rows[q].attempts, d)
    ensures SweepStep(s, q, nowMs, j, sink) == ReadyAt(s, q, nowMs + Millis(j(d)))
  {
  }

  /** On a whole millisecond a nak and a sweep release the same row for the same instant if
      and only if the jittered wait is not negative or itself whole milliseconds. */
  lemma NakAndSweepAgreeIff(s: State, q: int, nowMs: int, j: Jitter, sink: bool, d: int)
    requires CanRetry(s, q) && s.rows[q].state == Inflight && s.rows[q].visibleAt <= nowMs
    requires ScheduledWait(s.cfg.backoff, s.rows[q].attempts, d)
    ensures SettleStep(s, TokenOf(s, q), NakVerb, Scheduled, j, nowMs * 1_000_000, sink)
         == SweepStep(s, q, nowMs, j, sink)
       <==> j(d) >= 0 || j(d) % 1_000_000 == 0
  {
    var x := j(d);
    NakWaits(s, q, j, nowMs * 1_000_000, sink, d);
    SweepWaits(s, q, nowMs, j, sink, d);
    WholeStart(nowMs, x);
    var a, b := ReadyAt(s, q, UnixMilli(nowMs * 1_000_000 + x)), ReadyAt(s, q, nowMs + Millis(x));
    assert a == b ==> a.rows[q].visibleAt == b.rows[q].visibleAt;
  }

  lemma WholeStart(nowMs: int, x: int)
    ensures UnixMilli(nowMs * 1_000_000 + x) == nowMs + Millis(x) <==> x >= 0 || x % 1_000_000 == 0
  {
    var n := nowMs * 1_000_000 + x;
    assert n / 1_000_000 == nowMs + x / 1_000_000;
  }

  /** Within the sweep's millisecond, and for a wait that is not negative, the nak's instant
      is the sweep's or one millisecond later. */
  lemma NakAndSweepClose(s: State, q: int, now: int, j: Jitter, sink: bool, d: int)
    requires CanRetry(s, q) && s.rows[q].state == Inflight && s.rows[q].visibleAt <= UnixMilli(now)
    requires ScheduledWait(s.cfg.backoff, s.rows[q].attempts, d) && j(d) >= 0
    ensures var nak := SettleStep(s, TokenOf(s, q), NakVerb, Scheduled, j, now, sink);
            var sweep := SweepStep(s, q, UnixMilli(now), j, sink);
            q in nak.rows && q in sweep.rows
            && sweep.rows[q].visibleAt <= nak.rows[q].visibleAt <= sweep.rows[q].visibleAt + 1
  {
    NakWaits(s, q, j, now, sink, d);
    SweepWaits(s, q, UnixMilli(now), j, sink, d);
    var x := j(d);
    Rounding(now);
    Rounding(x);
    Rounding(now + x);
  }

  // ---- leases -------------------------------------------------------------------

  /** An extend adds one ack_wait to the deadline, or to now once that has passed; it is
      granted exactly to the holder of a lease that stays within max_ack_wait of its claim. */
  lemma ExtendIs(s: State, q: int, nak: NakDelay, j: Jitter, now: int, sink: bool)
    requires q in s.rows && s.rows[q].generation == s.generation
    ensures var t, row := SettleStep(s, TokenOf(s, q), ExtendVerb, nak, j, now, sink), s.rows[q];
            var base := if row.visibleAt < UnixMilli(now) then UnixMilli(now) else row.visibleAt;
            var deadline := base + Millis(s.cfg.ackWait);
            t == if row.state == Inflight && deadline - row.deliveredAt <= Millis(s.maxAckWait)
                 then s.(rows := s.rows[q := Row(Inflight, row.attempts, deadline, row.deliveredAt, row.generation)])
                 else s
  {
  }

  // ---- answers ------------------------------------------------------------------

  /** The planner grants the token its verb. */
  predicate Fits(s: State, token: Token) {
    token.generation == s.generation && token.seqNo in s.rows && s.rows[token.seqNo].attempts == token.attempt
  }

  /** Every answer, for every token at all, and exactly when it is given. */
  lemma AnswersExactly(s: State, token: Token, verb: Verb, nak: NakDelay, j: Jitter, now: int)
    ensures var plan := SettlePlan(s, token, verb, nak, j, now);
            && (Fits(s, token) ==> (plan == BadRequest <==>
                  var row := s.rows[token.seqNo];
                  || verb == OtherVerb
                  || (verb == NakVerb && nak.Explicit? && !(0 <= nak.delay <= MAX_NAK_DELAY))
                  || (verb == ExtendVerb && row.state == Inflight
                      && (row.visibleAt + Millis(s.cfg.ackWait) > row.deliveredAt + Millis(s.maxAckWait)
                          || UnixMilli(now) + Millis(s.cfg.ackWait) > row.deliveredAt + Millis(s.maxAckWait)))))
            && (!Fits(s, token) ==> plan != BadRequest)
            && (plan.Plan? ==>
                  && (plan.status == WrongGen <==> token.generation != s.generation)
                  && (plan.status == Stale <==>
                        token.generation == s.generation && token.seqNo !in s.rows && token.seqNo < s.cursor)
                  && (plan.status == Unknown <==>
                        token.generation == s.generation && token.seqNo !in s.rows && token.seqNo >= s.cursor)
                  && (plan.status == OK <==>
                        Fits(s, token) && (verb == ExtendVerb ==> s.rows[token.seqNo].state == Inflight))
                  && (plan.status == StaleAck ==>
                        token.seqNo in s.rows && plan.currentAttempt == s.rows[token.seqNo].attempts)
                  && (plan.action == Noop <==> plan.status != OK))
  {
  }

  /** What the answers mean. "Unknown": never delivered since the last seek. "Stale": before
      the cursor and not pending, so finished, no longer stored, never wanted, or from before
      the last seek. A mismatched attempt names the row's own, and an attempt from the future
      is none the broker ever minted. */
  lemma AnswersMean(s: State, token: Token, verb: Verb, nak: NakDelay, j: Jitter, now: int)
    requires Inv(s)
    ensures var plan := SettlePlan(s, token, verb, nak, j, now); var q := token.seqNo;
            plan.Plan? ==>
              && (plan.status == Unknown ==> q !in s.claimed && q !in s.rows)
              && (plan.status == Stale ==> q in s.finished || q !in s.msgs || !s.msgs[q].wanted || q < s.base)
              && (plan.reason == FutureAttempt <==> plan.status == StaleAck && token.attempt > s.rows[q].attempts)
              && (plan.reason == FutureAttempt ==> token !in s.minted)
              && (plan.reason == NotInflight <==> Fits(s, token) && verb == ExtendVerb && s.rows[q].state == Ready)
  {
  }

  /** A granted ack says whether the lease had run out and how long the worker held it. */
  lemma AckReports(s: State, token: Token, nak: NakDelay, j: Jitter, now: int)
    requires Inv(s) && Fits(s, token) && token.attempt >= 1
    ensures var plan, row := SettlePlan(s, token, AckVerb, nak, j, now), s.rows[token.seqNo];
            && plan.Plan? && plan.action.Remove? && (plan.action.late <==> row.state == Ready)
            && (row.deliveredAt != 0 ==> row.deliveredAt + plan.action.heldMs == UnixMilli(now))
            && (row.deliveredAt == 0 ==> plan.action.heldMs == 0)
  {
  }

  /** Why a sweep buries a row: it was the last attempt, or the limit was lowered since. */
  lemma SweepReports(row: Row, cfg: Config, generation: int, nowMs: int, j: Jitter)
    ensures var dec := DecideSweep(row, cfg, generation, nowMs, j);
            && (dec == SweepDead(AckWaitTrigger) <==>
                  row.visibleAt <= nowMs && row.generation == generation && cfg.maxDeliver > 0 && row.attempts == cfg.maxDeliver)
            && (dec == SweepDead(PolicyLowered) <==>
                  row.visibleAt <= nowMs && row.generation == generation && 0 < cfg.maxDeliver < row.attempts)
            && (dec == SkipNotExpired <==> nowMs < row.visibleAt)
            && (dec == SkipGeneration <==> row.visibleAt <= nowMs && row.generation != generation)
  {
  }

  /** A row that is settled or swept but stays changes in no other way, and no other row
      does. */
  lemma OthersUntouched(s: State, step: Step, q: int)
    requires step.Settle? || step.Sweep? || step.Retire?
    requires q in s.rows && !(step.Settle? && step.token.seqNo == q) && !(!step.Settle? && step.q == q)
    ensures var t := Next(s, step); q in t.rows && t.rows[q] == s.rows[q]
  {
  }
}
