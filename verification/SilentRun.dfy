/** The retry timetable of `Horizon` read off the broker's own runs: a row whose worker
    never answers is only ever swept and claimed, and dies when the timetable says. */
module SilentRun {
  import opened Delivery
  import opened Broker
  import opened BrokerInvariant
  import opened Horizon
  import opened Visibility

  /** A step that leaves row `q` and what governs it alone. */
  ghost predicate Untouched(s: State, t: State, q: int)
    requires q in s.rows
  {
    q in t.rows && t.rows[q] == s.rows[q] && t.cfg == s.cfg && t.generation == s.generation
  }

  /** Nobody answers for `q`: its expired lease is swept `late.sweep` after the deadline,
      its ready row is claimed `late.claim` after it turned visible, n being the attempts
      so far, and nothing else concerns it. */
  ghost predicate Silent(s: State, step: Step, q: int, late: Delays, j: Jitter)
    requires q in s.rows
  {
    var row := s.rows[q];
    match step
    case Sweep(p, at, jitter, sink) =>
      p == q && row.state == Inflight && row.visibleAt <= at ==>
        at == row.visibleAt + late.sweep(row.attempts) && sink && forall d :: jitter(d) == j(d)
    case Fetch(now, batch, maxBytes, limit) =>
      row.state == Ready && !Untouched(s, FetchStep(s, now, batch, maxBytes, limit), q) ==>
        UnixMilli(now) == row.visibleAt + late.claim(row.attempts)
    case _ => Untouched(s, Next(s, step), q)
  }

  /** A delivered row of the current generation under a delivery bound. */
  ghost predicate Waiting(s: State, q: int) {
    q in s.rows && s.rows[q].attempts >= 1 && s.rows[q].generation == s.generation && s.cfg.maxDeliver > 0
  }

  /** When the timetable says the row dies: a ready row is claimed first. */
  ghost function DeathOf(row: Row, cfg: Config, late: Delays, j: Jitter): int
    requires row.attempts >= 1 && cfg.maxDeliver > 0 && forall n :: late.sweep(n) >= 0
  {
    if row.state == Inflight then DiesAt(row, cfg, late, j)
    else DiesAt(ClaimRow(row, row.visibleAt + late.claim(row.attempts), Millis(cfg.ackWait)), cfg, late, j)
  }

  /** A fetch leaves the row as it is or claims it, if it was ready. */
  lemma FetchRow(s: State, now: int, batch: nat, maxBytes: int, limit: nat, q: int)
    requires Inv(s) && limit > 0 && q in s.rows
    ensures var t := FetchStep(s, now, batch, maxBytes, limit);
            Untouched(s, t, q)
            || (s.rows[q].state == Ready && t.cfg == s.cfg && t.generation == s.generation && q in t.rows
                && t.rows[q] == ClaimRow(s.rows[q], UnixMilli(now), Millis(s.cfg.ackWait)))
  {
    FetchRowExact(s, now, batch, maxBytes, limit, q);
  }

  lemma SweepRow(s: State, at: int, jitter: Jitter, sink: bool, q: int, late: Delays, j: Jitter)
    requires Waiting(s, q) && Silent(s, Sweep(q, at, jitter, sink), q, late, j)
    requires forall n :: late.sweep(n) >= 0
    ensures var t := SweepStep(s, q, at, jitter, sink);
            && (q in t.rows ==> Waiting(t, q) && t.cfg == s.cfg
                                && DeathOf(t.rows[q], t.cfg, late, j) == DeathOf(s.rows[q], s.cfg, late, j))
            && (q !in t.rows ==> at == DeathOf(s.rows[q], s.cfg, late, j))
  {
  }

  /** A silent step keeps the hour of death, and only a sweep at that hour ends the row. */
  lemma SilentStep(s: State, step: Step, q: int, late: Delays, j: Jitter)
    requires Inv(s) && Enabled(s, step) && Waiting(s, q) && Silent(s, step, q, late, j)
    requires forall n :: late.sweep(n) >= 0
    ensures var t := Next(s, step);
            && (q in t.rows ==> Waiting(t, q) && t.cfg == s.cfg
                                && DeathOf(t.rows[q], t.cfg, late, j) == DeathOf(s.rows[q], s.cfg, late, j))
            && (q !in t.rows ==> step.Sweep? && step.q == q && step.nowMs == DeathOf(s.rows[q], s.cfg, late, j))
  {
    match step
    case Sweep(p, at, jitter, sink) =>
      if p == q {
        SweepRow(s, at, jitter, sink, q, late, j);
      } else {
        assert Untouched(s, SweepStep(s, p, at, jitter, sink), q);
      }
    case Fetch(now, batch, maxBytes, limit) => FetchKeepsDeath(s, now, batch, maxBytes, limit, q, late, j);
    case _ =>
  }

  lemma FetchKeepsDeath(s: State, now: int, batch: nat, maxBytes: int, limit: nat, q: int, late: Delays, j: Jitter)
    requires Inv(s) && limit > 0 && Waiting(s, q) && Silent(s, Fetch(now, batch, maxBytes, limit), q, late, j)
    requires forall n :: late.sweep(n) >= 0
    ensures var t := FetchStep(s, now, batch, maxBytes, limit);
            q in t.rows && Waiting(t, q) && t.cfg == s.cfg
            && DeathOf(t.rows[q], t.cfg, late, j) == DeathOf(s.rows[q], s.cfg, late, j)
  {
    FetchRow(s, now, batch, maxBytes, limit, q);
  }

  /** The n-th step of a run is silent for a row it finds there. */
  ghost predicate SilentAt(trace: seq<State>, steps: seq<Step>, n: nat, q: int, late: Delays, j: Jitter)
    requires n < |steps| < |trace|
  {
    q in trace[n].rows && Silent(trace[n], steps[n], q, late, j)
  }

  ghost predicate SilentFrom(trace: seq<State>, steps: seq<Step>, i: nat, k: nat, q: int, late: Delays, j: Jitter)
    requires k <= |steps| < |trace|
  {
    && (forall n :: late.sweep(n) >= 0)
    && forall n | i <= n < k :: SilentAt(trace, steps, n, q, late, j)
  }

  lemma SilentRunStep(trace: seq<State>, steps: seq<Step>, n: nat, q: int, late: Delays, j: Jitter)
    requires Run(trace, steps) && n < |steps| && Waiting(trace[n], q) && SilentFrom(trace, steps, n, n + 1, q, late, j)
    ensures var s, t := trace[n], trace[n + 1];
            && (q in t.rows ==> Waiting(t, q) && t.cfg == s.cfg
                                && DeathOf(t.rows[q], t.cfg, late, j) == DeathOf(s.rows[q], s.cfg, late, j))
            && (q !in t.rows ==> steps[n].Sweep? && steps[n].q == q
                                 && steps[n].nowMs == DeathOf(s.rows[q], s.cfg, late, j))
  {
    RunKeeps(trace, steps, n);
    assert Follows(trace, steps, n) && SilentAt(trace, steps, n, q, late, j);
    SilentStep(trace[n], steps[n], q, late, j);
  }

  lemma SilentSplit(trace: seq<State>, steps: seq<Step>, i: nat, k: nat, q: int, late: Delays, j: Jitter)
    requires i < k <= |steps| < |trace| && SilentFrom(trace, steps, i, k, q, late, j)
    ensures SilentFrom(trace, steps, i, k - 1, q, late, j) && SilentFrom(trace, steps, k - 1, k, q, late, j)
    ensures q in trace[k - 1].rows
  {
    assert SilentAt(trace, steps, k - 1, q, late, j);
  }

  lemma {:induction false} SilentStretch(trace: seq<State>, steps: seq<Step>, i: nat, k: nat, q: int, late: Delays, j: Jitter)
    requires Run(trace, steps) && i <= k <= |steps| && Waiting(trace[i], q) && SilentFrom(trace, steps, i, k, q, late, j)
    requires q in trace[k].rows
    ensures Waiting(trace[k], q) && trace[k].cfg == trace[i].cfg
    ensures DeathOf(trace[k].rows[q], trace[k].cfg, late, j) == DeathOf(trace[i].rows[q], trace[i].cfg, late, j)
    decreases k
  {
    if i < k {
      SilentSplit(trace, steps, i, k, q, late, j);
      SilentStretch(trace, steps, i, k - 1, q, late, j);
      SilentRunStep(trace, steps, k - 1, q, late, j);
    }
  }

  /** In every run, a row whose worker stays silent from step i on ends at a sweep, and at
      exactly the hour the timetable gave for it at step i. */
  lemma SilentRunDies(trace: seq<State>, steps: seq<Step>, i: nat, k: nat, q: int, late: Delays, j: Jitter)
    requires Run(trace, steps) && i < k <= |steps| && Waiting(trace[i], q) && SilentFrom(trace, steps, i, k, q, late, j)
    requires q !in trace[k].rows
    ensures steps[k - 1].Sweep? && steps[k - 1].q == q
    ensures steps[k - 1].nowMs == DeathOf(trace[i].rows[q], trace[i].cfg, late, j)
  {
    SilentSplit(trace, steps, i, k, q, late, j);
    SilentStretch(trace, steps, i, k - 1, q, late, j);
    SilentRunStep(trace, steps, k - 1, q, late, j);
  }

  /** With no delivery limit the horizon is infinite, and indeed neither a sweep, nor the
      retirement pass, nor a nak ever takes a row away. */
  lemma UnlimitedNeverDies(s: State, step: Step, q: int)
    requires q in s.rows && s.cfg.maxDeliver == 0
    requires step.Sweep? || step.Retire? || (step.Settle? && step.verb == NakVerb)
    ensures q in Next(s, step).rows
    ensures TimeToDead(s.cfg) == HORIZON_INFINITE
  {
  }

  /** So from its first claim at t0, without jitter and with whole-millisecond settings,
      such a row dies in any run no sooner than TimeToDead and at most M*s + (M-1)*c later. */
  lemma SilentRunDeadline(trace: seq<State>, steps: seq<Step>, i: nat, k: nat, q: int, t0: int, late: Delays, j: Jitter,
                          s: int, c: int)
    requires Run(trace, steps) && i < k <= |steps| && Waiting(trace[i], q) && WholeMs(trace[i].cfg)
    requires trace[i].rows[q] == FirstClaim(t0, trace[i].cfg, trace[i].generation)
    requires forall d :: j(d) == d
    requires forall n :: 0 <= late.sweep(n) <= s
    requires forall n :: 0 <= late.claim(n) <= c
    requires SilentFrom(trace, steps, i, k, q, late, j) && q !in trace[k].rows
    ensures steps[k - 1].Sweep?
    ensures var cfg := trace[i].cfg; var life := steps[k - 1].nowMs - t0;
            TimeToDead(cfg) <= life * NANOS_PER_MS
            <= TimeToDead(cfg) + (cfg.maxDeliver * s + (cfg.maxDeliver - 1) * c) * NANOS_PER_MS
  {
    SilentRunDies(trace, steps, i, k, q, late, j);
    SilentWorkerDeadline(t0, trace[i].cfg, trace[i].generation, late, j, s, c);
  }
}
