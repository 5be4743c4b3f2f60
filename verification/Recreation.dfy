/** Deleting a consumer and creating it again: the new one starts over at generation 1, so
    tokens of its predecessor may fit its deliveries. This module says exactly which. */
module Recreation {
  import opened Delivery
  import opened Broker
  import opened BrokerInvariant
  import opened BrokerTheorems
  import opened Scenarios

  /** The consumer deleted and created again at `cursor`: no rows, no history, generation
      1, on the same stream. */
  function Recreate(s: State, cursor: int, cfg: Config): State {
    State(s.next, s.msgs, cursor, 1, cfg, s.maxAckWait, map[], 0, cursor, 0, {}, {}, [], [])
  }

  ghost predicate SecondLife(trace: seq<State>, steps: seq<Step>, s: State, cursor: int, cfg: Config) {
    Run(trace, steps) && trace[0] == Recreate(s, cursor, cfg)
  }

  lemma RecreatedIsInitial(s: State, cursor: int, cfg: Config)
    requires Inv(s) && 1 <= cursor <= s.next && ValidConfig(cfg, s.maxAckWait)
    ensures Initial(Recreate(s, cursor, cfg))
  {
  }

  // ---- when an old token passes ----------------------------------------------------------

  /** Messages are as they were, or newer; and without a generation bump no seek happened. */
  ghost predicate Descends(s: State, t: State) {
    && s.next <= t.next && s.generation <= t.generation
    && (forall q | q in t.msgs && q < s.next :: q in s.msgs && t.msgs[q] == s.msgs[q])
    && (t.generation == s.generation ==> t.base == s.base)
  }

  lemma StepDescends(s: State, step: Step)
    requires Inv(s) && Enabled(s, step)
    ensures Descends(s, Next(s, step))
  {
    match step
    case Fetch(now, batch, maxBytes, limit) =>
      if |s.rows| < s.cfg.maxAckPending {
        TopUpExact(s, limit);
      }
    case _ =>
  }

  lemma DescendsTrans(s: State, t: State, u: State)
    requires Descends(s, t) && Descends(t, u)
    ensures Descends(s, u)
  {
  }

  lemma RunStepDescends(trace: seq<State>, steps: seq<Step>, n: nat)
    requires Run(trace, steps) && n < |steps|
    ensures Descends(trace[n], trace[n + 1])
  {
    RunKeeps(trace, steps, n);
    assert Follows(trace, steps, n);
    StepDescends(trace[n], steps[n]);
  }

  lemma {:induction false} RunDescends(trace: seq<State>, steps: seq<Step>, i: nat)
    requires Run(trace, steps) && i < |trace|
    ensures Descends(trace[0], trace[i])
  {
    if i > 0 {
      RunDescends(trace, steps, i - 1);
      RunStepDescends(trace, steps, i - 1);
      DescendsTrans(trace[0], trace[i - 1], trace[i]);
    }
  }

  /** In any state of any run of the new consumer, a token at all acks one of its
      deliveries exactly when it says the consumer's generation and the row of its seq is of
      that generation and on that very attempt; and before the first seek or purge such a
      seq is at or after where the new consumer started. */
  lemma OldTokenActsIff(trace: seq<State>, steps: seq<Step>, i: nat, s: State, cursor: int, cfg: Config, t: Token,
                        nak: NakDelay, j: Jitter, now: int)
    requires SecondLife(trace, steps, s, cursor, cfg) && i < |trace|
    ensures var u := trace[i]; var acked := SettleStep(u, t, AckVerb, nak, j, now, false);
            && (acked == Finish(u, t.seqNo) <==>
                t.seqNo in u.rows && u.rows[t.seqNo].attempts == t.attempt
                && u.rows[t.seqNo].generation == u.generation == t.generation)
            && (acked == Finish(u, t.seqNo) && t.generation == 1 ==> cursor <= t.seqNo)
  {
    RunKeeps(trace, steps, i);
    RunDescends(trace, steps, i);
    AckFinishesIff(trace[i], t, nak, j, now);
    assert |Finish(trace[i], t.seqNo).removals| == |trace[i].removals| + 1;
  }

  /** Some run of the new consumer reaches a delivery that the token settles. */
  ghost predicate CanAct(s: State, cursor: int, cfg: Config, t: Token) {
    exists trace: seq<State>, steps: seq<Step> ::
      SecondLife(trace, steps, s, cursor, cfg) && Live(trace[|steps|], t)
  }

  lemma ActsOnlyIf(s: State, cursor: int, cfg: Config, t: Token, trace: seq<State>, steps: seq<Step>)
    requires SecondLife(trace, steps, s, cursor, cfg) && Live(trace[|steps|], t) && t.seqNo < s.next
    ensures t.generation >= 1 && t.seqNo in s.msgs && s.msgs[t.seqNo].wanted
    ensures t.generation == 1 ==> cursor <= t.seqNo
  {
    RunKeeps(trace, steps, |steps|);
    RunDescends(trace, steps, |steps|);
  }

  // ---- a run that gets there -------------------------------------------------------------

  /** The shortest lease the validator accepts, no retry limit, no wait, one at a time. */
  function Hasty(): Config {
    Config(MIN_ACK_WAIT, 0, [0], 1)
  }

  /** The k-th lease of a message claimed again the moment each lease runs out. */
  function KthLease(k: nat, generation: int): Row {
    Row(Inflight, k, 100 * k, 100 * (k - 1), generation)
  }

  /** The only row, out on its k-th lease. */
  ghost predicate OnLease(s: State, q: int, k: nat, generation: int) {
    && s.generation == generation && s.cfg == Hasty() && q in s.msgs
    && s.rows == map[q := KthLease(k, generation)]
  }

  lemma Expire(s: State, q: int, k: nat, g: int)
    requires OnLease(s, q, k, g)
    ensures SweepStep(s, q, 100 * k, d => d, true) == s.(rows := map[q := Row(Ready, k, 100 * k, 100 * (k - 1), g)])
  {
    assert Millis(BackoffFor([0], k)) == 0;
    assert s.rows[q := Row(Ready, k, 100 * k, 100 * (k - 1), g)] == map[q := Row(Ready, k, 100 * k, 100 * (k - 1), g)];
  }

  lemma Reclaim(s: State, q: int, k: nat, g: int)
    requires s.generation == g && s.cfg == Hasty() && q in s.msgs
    requires s.rows == map[q := Row(Ready, k, 100 * k, 100 * (k - 1), g)]
    ensures OnLease(FetchStep(s, 100 * k * MS, 1, FETCH_BYTES, SCAN_LIMIT), q, k + 1, g)
  {
    assert UnixMilli(100 * k * MS) == 100 * k && Millis(MIN_ACK_WAIT) == 100;
    assert Claimable(s, 100 * k) == {q};
    RefetchOne(s, 100 * k * MS, q);
    assert s.rows[q := KthLease(k + 1, g)] == map[q := KthLease(k + 1, g)];
  }

  /** One expiry and one new claim. */
  lemma OneMoreAttempt(trace: seq<State>, steps: seq<Step>, q: int, k: nat, g: int) returns (trace': seq<State>, steps': seq<Step>)
    requires Run(trace, steps) && OnLease(trace[|steps|], q, k, g)
    ensures Run(trace', steps') && trace'[0] == trace[0] && OnLease(trace'[|steps'|], q, k + 1, g)
  {
    var s := trace[|steps|];
    var released := s.(rows := map[q := Row(Ready, k, 100 * k, 100 * (k - 1), g)]);
    Expire(s, q, k, g);
    trace', steps' := Extend(trace, steps, Sweep(q, 100 * k, d => d, true), released);
    Reclaim(released, q, k, g);
    var again := Fetch(100 * k * MS, 1, FETCH_BYTES, SCAN_LIMIT);
    trace', steps' := Extend(trace', steps', again, Next(released, again));
  }

  lemma {:induction false} ManyAttempts(trace: seq<State>, steps: seq<Step>, q: int, k: nat, g: int) returns (trace': seq<State>, steps': seq<Step>)
    requires Run(trace, steps) && OnLease(trace[|steps|], q, 1, g) && k >= 1
    ensures Run(trace', steps') && trace'[0] == trace[0] && OnLease(trace'[|steps'|], q, k, g)
  {
    if k == 1 {
      trace', steps' := trace, steps;
    } else {
      trace', steps' := ManyAttempts(trace, steps, q, k - 1, g);
      trace', steps' := OneMoreAttempt(trace', steps', q, k - 1, g);
    }
  }

  /** The recreated consumer, reconfigured, on a stream purged down to one message. */
  function Prepared(s: State, cursor: int, q: int): State {
    Recreate(s, cursor, Hasty()).(msgs := s.msgs - (s.msgs.Keys - {q}))
  }

  lemma Prepare(s: State, cursor: int, cfg: Config, q: int) returns (trace: seq<State>, steps: seq<Step>)
    requires Inv(s) && 1 <= cursor <= s.next && Accepted(cfg, s.maxAckWait) && q in s.msgs
    ensures SecondLife(trace, steps, s, cursor, cfg) && trace[|steps|] == Prepared(s, cursor, q)
  {
    RecreatedIsInitial(s, cursor, cfg);
    var r0 := Recreate(s, cursor, cfg);
    trace, steps := [r0], [];
    var r1 := r0.(cfg := Hasty());
    assert UpdateStep(r0, Hasty()) == r1;
    trace, steps := Extend(trace, steps, Update(Hasty()), r1);
    var others := s.msgs.Keys - {q};
    if others == {} {
      assert s.msgs - others == s.msgs;
    }
    trace, steps := Extend(trace, steps, PurgeVictims(others), Prepared(s, cursor, q));
  }

  /** Then sought to the message until the generation is right, and fetched. */
  lemma FirstLease(s: State, cursor: int, cfg: Config, q: int, g: nat) returns (trace: seq<State>, steps: seq<Step>)
    requires Inv(s) && 1 <= cursor <= s.next && Accepted(cfg, s.maxAckWait)
    requires q in s.msgs && s.msgs[q].wanted && g >= 1 && (g == 1 ==> cursor <= q)
    ensures SecondLife(trace, steps, s, cursor, cfg) && OnLease(trace[|steps|], q, 1, g)
  {
    trace, steps := Prepare(s, cursor, cfg, q);
    trace, steps := ExtendSeeks(trace, steps, q, g - 1);
    assert Ahead(Sought(Prepared(s, cursor, q), q, g - 1)) == {q};
    trace, steps := ExtendFetch(trace, steps, q);
    assert Millis(MIN_ACK_WAIT) == 100 && UnixMilli(0) == 0;
  }

  /** A token of a message published before the recreation can come to act on the new
      consumer's deliveries if and only if it says a generation of at least 1, its message
      is still stored and wanted, and, should that generation be 1, lies at or after the
      new start. */
  lemma CanActIff(s: State, cursor: int, cfg: Config, t: Token)
    requires Inv(s) && 1 <= cursor <= s.next && Accepted(cfg, s.maxAckWait)
    requires t.attempt >= 1 && t.seqNo < s.next
    ensures CanAct(s, cursor, cfg, t) <==>
            && t.generation >= 1 && t.seqNo in s.msgs && s.msgs[t.seqNo].wanted
            && (t.generation == 1 ==> cursor <= t.seqNo)
  {
    if CanAct(s, cursor, cfg, t) {
      var trace: seq<State>, steps: seq<Step> :| SecondLife(trace, steps, s, cursor, cfg) && Live(trace[|steps|], t);
      ActsOnlyIf(s, cursor, cfg, t, trace, steps);
    }
    if t.generation >= 1 && t.seqNo in s.msgs && s.msgs[t.seqNo].wanted && (t.generation == 1 ==> cursor <= t.seqNo) {
      var trace, steps := FirstLease(s, cursor, cfg, t.seqNo, t.generation);
      trace, steps := ManyAttempts(trace, steps, t.seqNo, t.attempt, t.generation);
      assert SecondLife(trace, steps, s, cursor, cfg) && Live(trace[|steps|], t);
    }
  }

  /** One message, published, sought g - 1 times and fetched. */
  lemma FirstLife(g: nat) returns (trace: seq<State>, steps: seq<Step>)
    requires g >= 1
    ensures Run(trace, steps) && trace[0] == EmptyStream(Usual(), HOUR)
    ensures var s := trace[|steps|];
            s.minted == [Token(1, 1, g)] && s.msgs == map[1 := Msg(true, 1)] && s.next == 2 && s.maxAckWait == HOUR
  {
    var s0 := EmptyStream(Usual(), HOUR);
    trace, steps := [s0], [];
    var s1 := PublishStep(s0, Msg(true, 1));
    trace, steps := Extend(trace, steps, Publish(Msg(true, 1)), s1);
    trace, steps := ExtendSeeks(trace, steps, 1, g - 1);
    assert Ahead(Sought(s1, 1, g - 1)) == {1};
    trace, steps := ExtendFetch(trace, steps, 1);
  }

  /** The whole story on one message, for every generation g: fetched in generation g, the
      consumer deleted and created again, fetched in generation g again; the first worker's
      token then settles the second worker's lease. All configurations are ones the
      validator accepts. */
  lemma FirstTokenAcksSecondLease(g: nat) returns (first: seq<State>, firstSteps: seq<Step>, second: seq<State>, steps: seq<Step>, t: Token)
    requires g >= 1
    ensures Run(first, firstSteps) && first[0] == EmptyStream(Usual(), HOUR) && t in first[|firstSteps|].minted
    ensures SecondLife(second, steps, first[|firstSteps|], 1, Usual()) && t.generation == g
    ensures Accepted(Usual(), HOUR) && Accepted(second[|steps|].cfg, HOUR)
    ensures t.seqNo in second[|steps|].rows && second[|steps|].rows[t.seqNo].state == Inflight
    ensures SettleStep(second[|steps|], t, AckVerb, Scheduled, d => d, 0, false) == Finish(second[|steps|], t.seqNo)
  {
    first, firstSteps := FirstLife(g);
    RunKeeps(first, firstSteps, |firstSteps|);
    t := Token(1, 1, g);
    second, steps := FirstLease(first[|firstSteps|], 1, Usual(), 1, g);
    AckFinishesIff(second[|steps|], t, Scheduled, d => d, 0);
  }
}
