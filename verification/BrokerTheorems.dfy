/** What the invariant means for callers: fencing, at-least-once and the delivery
    bound. */
module BrokerTheorems {
  import opened Common
  import opened Delivery
  import opened Ordered
  import opened Broker
  import opened BrokerInvariant
  import opened Settlement

  // ---- fencing ------------------------------------------------------------------

  /** A settle changes something only for the one token that the row's latest claim
      minted; every other token, forged or replayed, leaves the state as it is. */
  lemma OnlyLatestTokenActs(s: State, token: Token, verb: Verb, nak: NakDelay, j: Jitter, now: int, sink: bool)
    requires Inv(s) && token.attempt >= 1
    requires SettleStep(s, token, verb, nak, j, now, sink) != s
    ensures token.seqNo in s.rows
    ensures token == Token(token.seqNo, s.rows[token.seqNo].attempts, s.generation)
    ensures exists i :: 0 <= i < |s.minted| && s.minted[i] == token
                        && forall k | 0 <= k < |s.minted| && k != i :: s.minted[k] != token
  {
    var i :| 0 <= i < |s.minted| && s.minted[i] == token;
    assert forall k | 0 <= k < |s.minted| && k != i :: s.minted[k] != token;
  }

  /** The token of a row's latest claim, while the row belongs to this generation. */
  predicate Live(s: State, t: Token) {
    && t.seqNo in s.rows && s.rows[t.seqNo].attempts == t.attempt
    && t.generation == s.generation == s.rows[t.seqNo].generation
  }

  /** An ack or a term removes the row for good exactly when its token is live. */
  lemma AckFinishesIff(s: State, token: Token, nak: NakDelay, j: Jitter, now: int)
    ensures SettleStep(s, token, AckVerb, nak, j, now, false) == if Live(s, token) then Finish(s, token.seqNo) else s
    ensures SettleStep(s, token, TermVerb, nak, j, now, true) == if Live(s, token) then Finish(s, token.seqNo) else s
    ensures SettleStep(s, token, TermVerb, nak, j, now, false) == s
  {
  }

  /** The planner's answers are honest for every token the broker minted in the current
      generation: `stale` means terminally removed, and it never answers `unknown`. */
  lemma StaleIsHonest(s: State, token: Token, verb: Verb, nak: NakDelay, j: Jitter, now: int)
    requires Inv(s) && token in s.minted && token.generation == s.generation
    ensures var plan := SettlePlan(s, token, verb, nak, j, now);
            plan.Plan? ==>
              && (plan.status == Stale <==> token.seqNo in s.finished)
              && plan.status != Unknown && plan.status != WrongGen
              && (plan.status == StaleAck && plan.reason != NotInflight ==> token.attempt < s.rows[token.seqNo].attempts)
  {
    var i :| 0 <= i < |s.minted| && s.minted[i] == token;
    assert TokenFits(s, s.minted[i]);
  }

  ghost predicate NoSeek(steps: seq<Step>, i: nat, k: nat) {
    i <= k <= |steps| && forall n | i <= n < k :: !steps[n].Seek?
  }

  lemma FetchMints(s: State, now: int, batch: nat, maxBytes: int, limit: nat, q: int)
    requires Inv(s) && limit > 0 && q in s.finished
    ensures StaysFinished(s, FetchStep(s, now, batch, maxBytes, limit), q)
  {
    var s1 := if |s.rows| >= s.cfg.maxAckPending then s else TopUp(s, limit);
    if |s.rows| < s.cfg.maxAckPending {
      TopUpKeeps(s, limit);
    }
    ClaimMints(s1, Chosen(s1, UnixMilli(now), batch, maxBytes), UnixMilli(now), q);
  }

  lemma ClaimMints(s: State, chosen: seq<int>, nowMs: int, q: int)
    requires q !in s.rows && Within(chosen, s.rows.Keys)
    ensures StaysFinished(s, Claim(s, chosen, nowMs), q)
  {
  }

  lemma QuietStepMints(s: State, step: Step, q: int)
    requires !step.Fetch? && !step.Seek?
    ensures StaysFinished(s, Next(s, step), q)
  {
  }

  /** The tokens a step adds all name rows that were not finished before it. */
  lemma StepMints(s: State, step: Step, q: int)
    requires Inv(s) && Enabled(s, step) && !step.Seek? && q in s.finished
    ensures StaysFinished(s, Next(s, step), q)
  {
    match step
    case Fetch(now, batch, maxBytes, limit) => FetchMints(s, now, batch, maxBytes, limit, q);
    case _ => QuietStepMints(s, step, q);
  }

  /** From `s` to `t` a finished seq stays finished and no token for it is minted. */
  ghost predicate StaysFinished(s: State, t: State, q: int) {
    q in s.finished ==>
      && q in t.finished && |s.minted| <= |t.minted| && t.minted[..|s.minted|] == s.minted
      && forall i | |s.minted| <= i < |t.minted| :: t.minted[i].seqNo != q
  }

  lemma StaysFinishedTrans(s: State, m: State, t: State, q: int)
    requires StaysFinished(s, m, q) && StaysFinished(m, t, q)
    ensures StaysFinished(s, t, q)
  {
  }

  lemma RunStepMints(trace: seq<State>, steps: seq<Step>, n: nat, q: int)
    requires Run(trace, steps) && n < |steps| && !steps[n].Seek?
    ensures StaysFinished(trace[n], trace[n + 1], q)
  {
    RunKeeps(trace, steps, n);
    assert Follows(trace, steps, n);
    if q in trace[n].finished {
      StepMints(trace[n], steps[n], q);
    }
  }

  lemma FinishedIsNotPending(trace: seq<State>, steps: seq<Step>, k: nat, q: int)
    requires Run(trace, steps) && k < |trace| && q in trace[k].finished
    ensures q !in trace[k].rows
  {
    RunKeeps(trace, steps, k);
  }

  /** Settled work stays settled: after a terminal removal the message is never pending
      again, and no token for it is ever minted again, until the operator seeks. */
  lemma {:induction false} SettledStaysSettled(trace: seq<State>, steps: seq<Step>, i: nat, k: nat, q: int)
    requires Run(trace, steps) && NoSeek(steps, i, k) && q in trace[i].finished
    ensures StaysFinished(trace[i], trace[k], q) && q !in trace[k].rows
    decreases k
  {
    if i < k {
      SettledStaysSettled(trace, steps, i, k - 1, q);
      RunStepMints(trace, steps, k - 1, q);
      StaysFinishedTrans(trace[i], trace[k - 1], trace[k], q);
    }
    FinishedIsNotPending(trace, steps, k, q);
  }

  /** At-least-once: in every state of every run, a live wanted message at or after the
      epoch's start is still ahead of the cursor, pending, or terminally removed; and
      no epoch removes a seq twice. */
  lemma NothingIsLost(trace: seq<State>, steps: seq<Step>, i: nat, m: int)
    requires Run(trace, steps) && i < |trace|
    requires m in trace[i].msgs && trace[i].msgs[m].wanted && trace[i].base <= m
    ensures var s := trace[i];
            && (m >= s.cursor || m in s.rows || m in s.finished)
            && (m in s.finished ==> m !in s.rows && m < s.cursor)
            && (m in s.rows ==> m < s.cursor)
    ensures forall a, b | 0 <= a < b < |trace[i].removals| :: trace[i].removals[a] != trace[i].removals[b]
  {
    RunKeeps(trace, steps, i);
  }

  /** Lowering max_ack_pending never moves the cursor forward, and afterwards every row
      that was never delivered still lies below it. */
  lemma UpdateNeverAdvances(s: State, cfg: Config)
    requires Inv(s) && ValidConfig(cfg, s.maxAckWait)
    ensures var t := UpdateStep(s, cfg);
            t.cursor <= s.cursor && forall q | q in Droppable(t.rows) :: q < t.cursor
  {
    if cfg.maxAckPending < s.cfg.maxAckPending {
      var r := Shrink.ShrinkExact(s.rows, s.cursor, cfg.maxAckPending);
    }
  }

  // ---- the delivery bound -------------------------------------------------------

  /** With max_deliver between 1 and `bound`: READY rows have attempts left, INFLIGHT
      rows are within the bound, and so is every token. */
  ghost predicate Bounded(s: State, bound: int) {
    && 0 < s.cfg.maxDeliver <= bound
    && (forall q | q in s.rows && s.rows[q].state == Ready :: s.rows[q].attempts < bound)
    && (forall q | q in s.rows && s.rows[q].state == Inflight :: 1 <= s.rows[q].attempts <= bound)
    && (forall i | 0 <= i < |s.minted| :: 1 <= s.minted[i].attempt <= bound)
  }

  ghost predicate WithinBound(steps: seq<Step>, bound: int) {
    forall i | 0 <= i < |steps| && steps[i].Update? :: 0 < steps[i].cfg.maxDeliver <= bound
  }

  lemma TopUpWithin(s: State, limit: nat, bound: int)
    requires Ranges(s) && RowsSound(s) && Bounded(s, bound) && limit > 0
    ensures Bounded(TopUp(s, limit), bound)
  {
    TopUpExact(s, limit);
  }

  lemma ClaimWithin(s: State, chosen: seq<int>, nowMs: int, bound: int)
    requires RowsSound(s) && Bounded(s, bound) && Within(chosen, s.rows.Keys)
    requires forall i | 0 <= i < |chosen| :: s.rows[chosen[i]].state == Ready
    ensures Bounded(Claim(s, chosen, nowMs), bound)
  {
    var t := Claim(s, chosen, nowMs);
    forall q | q in Elements(chosen) ensures q in s.rows && s.rows[q].state == Ready {
      var i :| 0 <= i < |chosen| && chosen[i] == q;
    }
    forall i | |s.minted| <= i < |t.minted| ensures 1 <= t.minted[i].attempt <= bound {
      var q := chosen[i - |s.minted|];
      assert RowShape(s.rows[q]);
    }
  }

  lemma SettleWithin(s: State, token: Token, verb: Verb, nak: NakDelay, j: Jitter, now: int, sink: bool, bound: int)
    requires RowsSound(s) && Bounded(s, bound) && token.attempt >= 1
    ensures Bounded(SettleStep(s, token, verb, nak, j, now, sink), bound)
  {
  }

  lemma SweepWithin(s: State, q: int, nowMs: int, j: Jitter, sink: bool, bound: int)
    requires Bounded(s, bound)
    ensures Bounded(SweepStep(s, q, nowMs, j, sink), bound)
  {
  }

  lemma UpdateWithin(s: State, cfg: Config, bound: int)
    requires Bounded(s, bound) && 0 < cfg.maxDeliver <= bound && ValidConfig(cfg, s.maxAckWait)
    ensures Bounded(UpdateStep(s, cfg), bound)
  {
    if cfg.maxAckPending < s.cfg.maxAckPending {
      var r := Shrink.ShrinkExact(s.rows, s.cursor, cfg.maxAckPending);
    }
  }

  lemma FetchWithin(s: State, now: int, batch: nat, maxBytes: int, limit: nat, bound: int)
    requires Inv(s) && Bounded(s, bound) && limit > 0
    ensures Bounded(FetchStep(s, now, batch, maxBytes, limit), bound)
  {
    var s1 := if |s.rows| >= s.cfg.maxAckPending then s else TopUp(s, limit);
    if |s.rows| < s.cfg.maxAckPending {
      TopUpWithin(s, limit, bound);
      TopUpKeeps(s, limit);
    }
    ClaimWithin(s1, Chosen(s1, UnixMilli(now), batch, maxBytes), UnixMilli(now), bound);
  }

  lemma StepBounded(s: State, step: Step, bound: int)
    requires Inv(s) && Bounded(s, bound) && Enabled(s, step)
    requires step.Update? ==> 0 < step.cfg.maxDeliver <= bound
    ensures Bounded(Next(s, step), bound)
  {
    match step
    case Fetch(now, batch, maxBytes, limit) => FetchWithin(s, now, batch, maxBytes, limit, bound);
    case Settle(token, verb, nak, j, at, sink) => SettleWithin(s, token, verb, nak, j, at, sink, bound);
    case Sweep(q, nowMs, j, sink) => SweepWithin(s, q, nowMs, j, sink, bound);
    case Update(cfg) => UpdateWithin(s, cfg, bound);
    case _ =>
  }

  lemma {:induction false} RunBounded(trace: seq<State>, steps: seq<Step>, i: nat, bound: int)
    requires Run(trace, steps) && i < |trace| && WithinBound(steps, bound)
    requires 0 < trace[0].cfg.maxDeliver <= bound
    ensures Bounded(trace[i], bound)
  {
    if i > 0 {
      RunBounded(trace, steps, i - 1, bound);
      RunKeeps(trace, steps, i - 1);
      assert Follows(trace, steps, i - 1);
      StepBounded(trace[i - 1], steps[i - 1], bound);
    }
  }

  /** Since the epoch began, each seq's tokens carry strictly increasing attempts, none
      ahead of its row. */
  ghost predicate EpochClaims(s: State) {
    && s.since <= |s.minted|
    && (forall i | s.since <= i < |s.minted| ::
          var t := s.minted[i]; t.seqNo in s.claimed && (t.seqNo in s.rows ==> t.attempt <= s.rows[t.seqNo].attempts))
    && (forall i, k | s.since <= i < k < |s.minted| && s.minted[i].seqNo == s.minted[k].seqNo ::
          s.minted[i].attempt < s.minted[k].attempt)
  }

  lemma ClaimCounts(s: State, chosen: seq<int>, nowMs: int)
    requires EpochClaims(s) && Within(chosen, s.rows.Keys) && Increasing(chosen)
    ensures EpochClaims(Claim(s, chosen, nowMs))
  {
    var t := Claim(s, chosen, nowMs);
    forall i | |s.minted| <= i < |t.minted|
      ensures t.minted[i] == Token(chosen[i - |s.minted|], s.rows[chosen[i - |s.minted|]].attempts + 1, s.generation)
      ensures chosen[i - |s.minted|] in Elements(chosen)
    {
    }
    assert forall i | 0 <= i < |s.minted| :: t.minted[i] == s.minted[i];
  }

  lemma FetchCounts(s: State, now: int, batch: nat, maxBytes: int, limit: nat)
    requires Inv(s) && EpochClaims(s) && limit > 0
    ensures EpochClaims(FetchStep(s, now, batch, maxBytes, limit))
  {
    var s1 := if |s.rows| >= s.cfg.maxAckPending then s else TopUp(s, limit);
    if |s.rows| < s.cfg.maxAckPending {
      TopUpExact(s, limit);
    }
    assert EpochClaims(s1);
    ClaimCounts(s1, Chosen(s1, UnixMilli(now), batch, maxBytes), UnixMilli(now));
  }

  /** Steps that mint nothing and leave no row with fewer attempts. */
  lemma QuietStepCounts(s: State, t: State)
    requires EpochClaims(s) && t.minted == s.minted && t.since == s.since && s.claimed <= t.claimed
    requires forall q | q in t.rows :: q in s.rows && t.rows[q].attempts == s.rows[q].attempts
    ensures EpochClaims(t)
  {
  }

  lemma UpdateCounts(s: State, cfg: Config)
    requires EpochClaims(s) && cfg.maxAckPending >= 1
    ensures EpochClaims(UpdateStep(s, cfg))
  {
    if cfg.maxAckPending < s.cfg.maxAckPending {
      var r := Shrink.ShrinkExact(s.rows, s.cursor, cfg.maxAckPending);
    }
    QuietStepCounts(s, UpdateStep(s, cfg));
  }

  lemma OtherStepCounts(s: State, step: Step)
    requires EpochClaims(s) && !step.Fetch? && !step.Update? && !step.Seek?
    ensures EpochClaims(Next(s, step))
  {
    QuietStepCounts(s, Next(s, step));
  }

  lemma StepCounts(s: State, step: Step)
    requires Inv(s) && EpochClaims(s) && Enabled(s, step)
    ensures EpochClaims(Next(s, step))
  {
    match step
    case Fetch(now, batch, maxBytes, limit) => FetchCounts(s, now, batch, maxBytes, limit);
    case Update(cfg) => UpdateCounts(s, cfg);
    case Seek(_) =>
    case _ => OtherStepCounts(s, step);
  }

  lemma {:induction false} RunCounts(trace: seq<State>, steps: seq<Step>, i: nat)
    requires Run(trace, steps) && i < |trace|
    ensures EpochClaims(trace[i])
  {
    if i > 0 {
      RunCounts(trace, steps, i - 1);
      RunKeeps(trace, steps, i - 1);
      assert Follows(trace, steps, i - 1);
      StepCounts(trace[i - 1], steps[i - 1]);
    }
  }

  /** The claims made for one seq since the epoch began, as positions in the minted log. */
  ghost function Claims(s: State, q: int): set<int> {
    set i | s.since <= i < |s.minted| && s.minted[i].seqNo == q
  }

  /** Claims with distinct attempt numbers in 1..bound are at most `bound`. */
  lemma {:induction false} Pigeonhole(I: set<int>, minted: seq<Token>, bound: nat)
    requires forall i | i in I :: 0 <= i < |minted| && 1 <= minted[i].attempt <= bound
    requires forall i, k | i in I && k in I && i != k :: minted[i].attempt != minted[k].attempt
    ensures |I| <= bound
    decreases bound
  {
    if bound == 0 {
      if I != {} {
        var i := Member(I);
        assert false;
      }
    } else if i :| i in I && minted[i].attempt == bound {
      Pigeonhole(I - {i}, minted, bound - 1);
    } else {
      Pigeonhole(I, minted, bound - 1);
    }
  }

  /** Between two seeks no message is claimed more than `bound` times, purges and their
      generation bumps included. */
  lemma AtMostMaxDeliverClaims(trace: seq<State>, steps: seq<Step>, i: nat, bound: int, q: int)
    requires Run(trace, steps) && i < |trace| && WithinBound(steps, bound)
    requires 0 < trace[0].cfg.maxDeliver <= bound
    ensures |Claims(trace[i], q)| <= bound
  {
    RunBounded(trace, steps, i, bound);
    RunCounts(trace, steps, i);
    Pigeonhole(Claims(trace[i], q), trace[i].minted, bound);
  }

  /** The last permitted failure dies, whether the worker naks or goes silent. */
  lemma LastFailureDies(s: State, q: int, nak: NakDelay, j: Jitter, now: int, nowMs: int)
    requires Inv(s) && q in s.rows && s.rows[q].state == Inflight && s.rows[q].generation == s.generation
    requires 0 < s.cfg.maxDeliver <= s.rows[q].attempts
    requires nak.Explicit? ==> 0 <= nak.delay <= MAX_NAK_DELAY
    ensures var token := Token(q, s.rows[q].attempts, s.generation);
            SettleStep(s, token, NakVerb, nak, j, now, true) == Finish(s, q)
    ensures s.rows[q].visibleAt <= nowMs ==> SweepStep(s, q, nowMs, j, true) == Finish(s, q)
  {
  }

  /** And no earlier failure does: with attempts left, both release the row, for when the
      schedule's wait after that attempt is over. */
  lemma EarlierFailureRetries(s: State, q: int, nak: NakDelay, j: Jitter, now: int, nowMs: int)
    requires Inv(s) && q in s.rows && s.rows[q].state == Inflight && s.rows[q].generation == s.generation
    requires s.cfg.maxDeliver == 0 || s.rows[q].attempts < s.cfg.maxDeliver
    requires nak.Explicit? ==> 0 <= nak.delay <= MAX_NAK_DELAY
    ensures var token := Token(q, s.rows[q].attempts, s.generation);
            var t := SettleStep(s, token, NakVerb, nak, j, now, true);
            && q in t.rows && t.rows[q].state == Ready && t.rows[q].attempts == s.rows[q].attempts
            && (nak == Scheduled ==> forall d | ScheduledWait(s.cfg.backoff, s.rows[q].attempts, d) ::
                  t.rows[q].visibleAt == UnixMilli(now + j(d)))
            && (nak.Explicit? ==> t.rows[q].visibleAt == UnixMilli(now + nak.delay))
    ensures var t := SweepStep(s, q, nowMs, j, true);
            q in t.rows && t.rows[q].attempts == s.rows[q].attempts
            && (s.rows[q].visibleAt <= nowMs ==>
                  && t.rows[q].state == Ready
                  && forall d | ScheduledWait(s.cfg.backoff, s.rows[q].attempts, d) ::
                       t.rows[q].visibleAt == nowMs + Millis(j(d)))
  {
  }
}
