/** The generation fence on delivery rows. Seek drops every row when it bumps the
    generation; a purge drops only the rows of deleted messages, so the rows it leaves
    behind keep the old generation. This module says exactly when that happens and what
    becomes of such rows. */
module Generations {
  import opened Delivery
  import opened Broker
  import opened BrokerInvariant
  import opened Scenarios
  import opened Visibility

  /** Audit rule C3: every row carries its consumer's generation. */
  ghost predicate RowsCurrent(s: State) {
    forall q | q in s.rows :: s.rows[q].generation == s.generation
  }

  lemma FetchKeepsCurrent(s: State, now: int, batch: nat, maxBytes: int, limit: nat)
    requires Ranges(s) && RowsSound(s) && RowsCurrent(s) && limit > 0
    ensures RowsCurrent(FetchStep(s, now, batch, maxBytes, limit))
  {
    if |s.rows| < s.cfg.maxAckPending {
      TopUpExact(s, limit);
    }
  }

  lemma UpdateKeepsCurrent(s: State, cfg: Config)
    requires RowsCurrent(s) && cfg.maxAckPending >= 1
    ensures RowsCurrent(UpdateStep(s, cfg))
  {
    if cfg.maxAckPending < s.cfg.maxAckPending {
      var r := Shrink.ShrinkExact(s.rows, s.cursor, cfg.maxAckPending);
    }
  }

  lemma QuietStepKeepsCurrent(s: State, step: Step)
    requires RowsCurrent(s) && !step.Fetch? && !step.Update? && !step.PurgeRange? && !step.PurgeVictims?
    ensures RowsCurrent(Next(s, step))
  {
  }

  /** Every command but a purge keeps C3. */
  lemma OtherStepsKeepCurrent(s: State, step: Step)
    requires Inv(s) && RowsCurrent(s) && Enabled(s, step) && !step.PurgeRange? && !step.PurgeVictims?
    ensures RowsCurrent(Next(s, step))
  {
    match step
    case Fetch(now, batch, maxBytes, limit) => FetchKeepsCurrent(s, now, batch, maxBytes, limit);
    case Update(cfg) => UpdateKeepsCurrent(s, cfg);
    case _ => QuietStepKeepsCurrent(s, step);
  }

  /** A purge keeps C3 exactly when it takes none of the consumer's rows or all of them. */
  lemma PurgeKeepsCurrentIff(s: State, gone: set<int>)
    requires Inv(s) && RowsCurrent(s)
    ensures RowsCurrent(DropMessages(s, gone)) <==>
            (forall q | q in s.rows :: q !in gone) || (forall q | q in s.rows :: q in gone)
  {
    var t := DropMessages(s, gone);
    if k, q :| k in s.rows && k !in gone && q in s.rows && q in gone {
      assert k in t.rows && t.rows[k].generation < t.generation;
    }
  }

  /** The same for a range purge that deletes something: rows on both sides of the bound
      are what breaks it. */
  lemma RangePurgeKeepsCurrentIff(s: State, upTo: int)
    requires Inv(s) && RowsCurrent(s)
    ensures RowsCurrent(PurgeRangeStep(s, upTo)) <==>
            (forall q | q in s.rows :: q > upTo) || (forall q | q in s.rows :: q <= upTo)
  {
    var upper := PurgeBound(s, upTo);
    PurgeKeepsCurrentIff(s, UpTo(s, upper));
    assert forall q | q in s.rows :: q in UpTo(s, upper) <==> q <= upTo;
    if forall m | m in s.msgs :: m > upper {
      assert forall q | q in s.rows :: q in s.msgs && q > upTo;
    }
  }

  /** An OK plan aborts the whole settle batch exactly when the dead sink refuses or the
      row belongs to an older generation than the token. */
  lemma SettleAbortsIff(s: State, token: Token, verb: Verb, nak: NakDelay, j: Jitter, now: int, sink: bool)
    ensures var plan := SettlePlan(s, token, verb, nak, j, now);
            SettleResult(s, token, verb, nak, j, now, sink) == Abort <==>
            plan.Plan? && !plan.action.Noop?
            && ((plan.action.Dead? && !sink) || s.rows[token.seqNo].generation != s.generation)
  {
  }

  /** A lease left behind by a purge. */
  ghost predicate Stranded(s: State, q: int) {
    q in s.rows && s.rows[q].state == Inflight && s.rows[q].generation < s.generation
  }

  /** Commands that can still take row `q` away. */
  predicate Frees(s: State, step: Step, q: int) {
    || step.Seek?
    || (step.PurgeVictims? && q in step.victims)
    || (step.PurgeRange? && q <= step.upTo)
  }

  lemma StrandedStep(s: State, step: Step, q: int)
    requires Inv(s) && Enabled(s, step) && Stranded(s, q) && !Frees(s, step, q)
    ensures Stranded(Next(s, step), q) && Next(s, step).rows[q] == s.rows[q]
  {
    match step
    case Fetch(now, batch, maxBytes, limit) => HiddenIsLeft(s, now, batch, maxBytes, limit, q);
    case Update(cfg) =>
      if cfg.maxAckPending < s.cfg.maxAckPending {
        var r := Shrink.ShrinkExact(s.rows, s.cursor, cfg.maxAckPending);
        assert q in r.rows;
      }
    case Settle(_, _, _, _, _, _) =>
    case _ =>
  }

  ghost predicate SameRow(s: State, t: State, q: int) {
    Stranded(s, q) ==> Stranded(t, q) && t.rows[q] == s.rows[q]
  }

  lemma {:induction false} SameRowChain(states: seq<State>, q: int)
    requires |states| > 0
    requires forall n | 0 <= n < |states| - 1 :: SameRow(states[n], states[n + 1], q)
    ensures SameRow(states[0], states[|states| - 1], q)
  {
    if |states| > 1 {
      SameRowChain(states[..|states| - 1], q);
      assert SameRow(states[|states| - 2], states[|states| - 1], q);
    }
  }

  /** A stranded lease never expires, is never redelivered and can never be settled:
      until a seek or a purge of that very seq, no run changes the row at all. */
  lemma StrandedForever(trace: seq<State>, steps: seq<Step>, i: nat, k: nat, q: int)
    requires Run(trace, steps) && i <= k < |trace| && Stranded(trace[i], q)
    requires forall n | i <= n < k :: !Frees(trace[n], steps[n], q)
    ensures Stranded(trace[k], q) && trace[k].rows[q] == trace[i].rows[q]
  {
    var states := trace[i..k + 1];
    forall n | 0 <= n < |states| - 1 ensures SameRow(states[n], states[n + 1], q) {
      RunKeeps(trace, steps, i + n);
      assert Follows(trace, steps, i + n);
      if Stranded(states[n], q) {
        StrandedStep(trace[i + n], steps[i + n], q);
      }
    }
    SameRowChain(states, q);
  }

  /** A range purge that splits a consumer's rows strands every lease above its bound. */
  lemma SplitPurgeStrands(s: State, upTo: int, k: int, q: int)
    requires k in s.rows && k in s.msgs && q in s.rows && k <= upTo < q && k < s.next
    requires s.rows[q].state == Inflight && s.rows[q].generation <= s.generation
    ensures Stranded(PurgeRangeStep(s, upTo), q)
  {
    var upper := PurgeBound(s, upTo);
    assert k in UpTo(s, upper) && q !in UpTo(s, upper);
  }

  /** The lease of a first claim at time zero under the usual settings. */
  function FirstLease(): Row {
    Row(Inflight, 1, 30_000, 0, 1)
  }

  /** Messages 1 and 2, both out on their first lease. */
  function BothLeased(): State {
    var m := Msg(true, 1);
    State(3, map[1 := m, 2 := m], 3, 1, Usual(), HOUR, map[1 := FirstLease(), 2 := FirstLease()], 0, 1, 0,
          {1, 2}, {}, [Token(1, 1, 1), Token(2, 1, 1)], [])
  }

  /** Two messages published and fetched one after the other, at time zero. */
  lemma BothInFlight() returns (trace: seq<State>, steps: seq<Step>)
    ensures Run(trace, steps) && trace[|steps|] == BothLeased() && Accepted(Usual(), HOUR)
    ensures forall i | 0 <= i < |steps| :: !steps[i].Settle?
  {
    trace, steps := OneInFlight();
    SecondLease();
    trace, steps := PublishAndFetch(trace, steps, Msg(true, 1));
  }

  /** Message 1 alone, out on its first lease. */
  function OneLeased(): State {
    State(2, map[1 := Msg(true, 1)], 2, 1, Usual(), HOUR, map[1 := FirstLease()], 0, 1, 0, {1}, {}, [Token(1, 1, 1)], [])
  }

  lemma OneInFlight() returns (trace: seq<State>, steps: seq<Step>)
    ensures Run(trace, steps) && trace[|steps|] == OneLeased() && Idle(OneLeased())
    ensures steps == [Publish(Msg(true, 1)), Fetch(0, 1, FETCH_BYTES, SCAN_LIMIT)]
  {
    var s0 := EmptyStream(Usual(), HOUR);
    trace, steps := [s0], [];
    trace, steps := PublishAndFetch(trace, steps, Msg(true, 1));
    FirstLeaseIs();
  }

  lemma FirstLeaseIs()
    ensures Fetched(PublishStep(EmptyStream(Usual(), HOUR), Msg(true, 1)), 0, 1) == OneLeased() && Idle(OneLeased())
  {
    var s := Fetched(PublishStep(EmptyStream(Usual(), HOUR), Msg(true, 1)), 0, 1);
    assert s.rows == map[1 := FirstLease()];
    assert Ahead(OneLeased()) == {};
  }

  lemma SecondLease()
    ensures Fetched(PublishStep(OneLeased(), Msg(true, 1)), 0, 2) == BothLeased()
  {
    var s := Fetched(PublishStep(OneLeased(), Msg(true, 1)), 0, 2);
    assert s.rows == map[1 := FirstLease(), 2 := FirstLease()];
    assert s.msgs == map[1 := Msg(true, 1), 2 := Msg(true, 1)];
  }

  /** A whole run that strands a lease: two messages in flight, the first one purged. */
  lemma PartialPurgeStrands() returns (trace: seq<State>, steps: seq<Step>)
    ensures Run(trace, steps) && steps != [] && steps[|steps| - 1] == PurgeRange(1)
    ensures Stranded(trace[|steps|], 2)
  {
    trace, steps := BothInFlight();
    var s := BothLeased();
    SplitPurgeStrands(s, 1, 1, 2);
    trace, steps := Extend(trace, steps, PurgeRange(1), PurgeRangeStep(s, 1));
  }
}
