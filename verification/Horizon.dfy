/** How long a message whose worker never answers takes to die. */
module Horizon {
  import opened Delivery
  import Broker

  const HORIZON_INFINITE: int := 0x7FFF_FFFF_FFFF_FFFF

  /** The waits after failures 1..n of a retry schedule, summed. */
  function Waits(backoff: seq<int>, n: int): int
    decreases if n > 0 then n else 0
  {
    if n <= 0 then 0 else Waits(backoff, n - 1) + BackoffFor(backoff, n)
  }

  lemma NoScheduleNoWaits(n: int)
    ensures Waits([], n) == 0
    decreases if n > 0 then n else 0
  {
  }

  method RetryHorizon(cfg: Config) returns (sum: int)
    ensures sum == if cfg.maxDeliver == 0 then HORIZON_INFINITE else Waits(cfg.backoff, cfg.maxDeliver - 1)
  {
    if cfg.maxDeliver == 0 {
      return HORIZON_INFINITE;
    }
    if cfg.maxDeliver <= 1 || |cfg.backoff| == 0 {
      NoScheduleNoWaits(cfg.maxDeliver - 1);
      return 0;
    }
    var waits := cfg.maxDeliver - 1;
    sum := 0;
    for i := 0 to waits
      invariant sum == Waits(cfg.backoff, i)
    {
      var idx := i;
      if idx >= |cfg.backoff| {
        idx := |cfg.backoff| - 1;
      }
      sum := sum + cfg.backoff[idx];
    }
  }

  function TimeToDead(cfg: Config): int {
    if cfg.maxDeliver == 0 then HORIZON_INFINITE
    else cfg.maxDeliver * cfg.ackWait + Waits(cfg.backoff, cfg.maxDeliver - 1)
  }

  /** How late the sweeper gets to the n-th expiry and a worker to the n-th redelivery. */
  datatype Delays = Delays(sweep: int -> int, claim: int -> int)

  /** The instant (unix ms) the sweeper retires a claimed row whose worker is silent:
      each expiry is swept, each release claimed again, until the sweep says dead. */
  function DiesAt(row: Row, cfg: Config, late: Delays, j: Jitter): int
    requires cfg.maxDeliver > 0 && row.state == Inflight && row.attempts >= 1
    requires forall n :: late.sweep(n) >= 0
    decreases cfg.maxDeliver - row.attempts
  {
    var swept := row.visibleAt + late.sweep(row.attempts);
    match DecideSweep(row, cfg, row.generation, swept, j)
    case Redeliver(at) =>
      var ready := row.(state := Ready, visibleAt := at);
      DiesAt(Broker.ClaimRow(ready, at + late.claim(row.attempts), Millis(cfg.ackWait)), cfg, late, j)
    case _ => swept
  }

  /** The sum of f(lo), ..., f(hi - 1). */
  function Sum(f: int -> int, lo: int, hi: int): int
    decreases if lo < hi then hi - lo else 0
  {
    if lo >= hi then 0 else f(lo) + Sum(f, lo + 1, hi)
  }

  /** The release delays (ms) after failures lo, ..., hi - 1 of a schedule. */
  function Releases(backoff: seq<int>, j: Jitter, lo: int, hi: int): int
    decreases if lo < hi then hi - lo else 0
  {
    if lo >= hi then 0 else Millis(j(BackoffFor(backoff, lo))) + Releases(backoff, j, lo + 1, hi)
  }

  /** From attempt `a` on, a silent row lives through the rest of its leases, the waits
      between them and every delay, and then dies: no sooner and no later. */
  lemma {:induction false} SilentRowDies(row: Row, cfg: Config, late: Delays, j: Jitter)
    requires 0 < cfg.maxDeliver && row.state == Inflight && 1 <= row.attempts <= cfg.maxDeliver
    requires forall n :: late.sweep(n) >= 0
    ensures var a, m := row.attempts, cfg.maxDeliver;
            DiesAt(row, cfg, late, j) == row.visibleAt + (m - a) * Millis(cfg.ackWait)
            + Releases(cfg.backoff, j, a, m)
            + Sum(late.sweep, a, m + 1) + Sum(late.claim, a, m)
    decreases cfg.maxDeliver - row.attempts
  {
    var a, m := row.attempts, cfg.maxDeliver;
    var ack := Millis(cfg.ackWait);
    if a < m {
      var swept := row.visibleAt + late.sweep(a);
      var at := swept + Millis(j(BackoffFor(cfg.backoff, a)));
      var next := Broker.ClaimRow(row.(state := Ready, visibleAt := at), at + late.claim(a), ack);
      SilentRowDies(next, cfg, late, j);
      assert (m - a) * ack == (m - (a + 1)) * ack + ack;
    } else {
      assert Sum(late.sweep, a, m + 1) == late.sweep(a);
    }
  }

  /** The row as its first claim at `t0` leaves it. */
  function FirstClaim(t0: int, cfg: Config, generation: int): Row {
    Broker.ClaimRow(Broker.FreshRow(generation), t0, Millis(cfg.ackWait))
  }

  predicate WholeMs(cfg: Config) {
    cfg.ackWait >= 0 && cfg.ackWait % NANOS_PER_MS == 0
    && forall i | 0 <= i < |cfg.backoff| :: cfg.backoff[i] >= 0 && cfg.backoff[i] % NANOS_PER_MS == 0
  }

  lemma {:induction false} ReleasesSnoc(backoff: seq<int>, j: Jitter, lo: int, hi: int)
    requires lo <= hi
    ensures Releases(backoff, j, lo, hi + 1) == Releases(backoff, j, lo, hi) + Millis(j(BackoffFor(backoff, hi)))
    decreases hi - lo
  {
    if lo < hi {
      ReleasesSnoc(backoff, j, lo + 1, hi);
    }
  }

  lemma {:induction false} WaitsInMs(cfg: Config, j: Jitter, n: int)
    requires WholeMs(cfg) && n >= 0 && forall d :: j(d) == d
    ensures Waits(cfg.backoff, n) == Releases(cfg.backoff, j, 1, n + 1) * NANOS_PER_MS
  {
    if n > 0 {
      WaitsInMs(cfg, j, n - 1);
      ReleasesSnoc(cfg.backoff, j, 1, n);
      assert BackoffFor(cfg.backoff, n) == Millis(j(BackoffFor(cfg.backoff, n))) * NANOS_PER_MS;
    }
  }

  lemma {:induction false} SumBounds(f: int -> int, lo: int, hi: int, most: int)
    requires lo <= hi && forall n :: 0 <= f(n) <= most
    ensures 0 <= Sum(f, lo, hi) <= (hi - lo) * most
    decreases hi - lo
  {
    if lo < hi {
      SumBounds(f, lo + 1, hi, most);
      assert (hi - lo) * most == (hi - (lo + 1)) * most + most;
    }
  }

  lemma LifeInNanos(m: int, ack: int, ackWait: int, waits: int, swept: int, claimed: int, s: int, c: int)
    requires ackWait == ack * NANOS_PER_MS && 0 <= swept <= m * s && 0 <= claimed <= (m - 1) * c
    ensures var life := ack + (m - 1) * ack + waits + swept + claimed;
            m * ackWait + waits * NANOS_PER_MS <= life * NANOS_PER_MS
            <= m * ackWait + waits * NANOS_PER_MS + (m * s + (m - 1) * c) * NANOS_PER_MS
  {
    assert ack + (m - 1) * ack == m * ack;
    assert m * ackWait == (m * ack) * NANOS_PER_MS;
  }

  /** Without jitter and with whole-millisecond settings: delays of at most `s` per sweep
      and `c` per claim kill the message no earlier than TimeToDead after its first
      delivery, and at most M*s + (M-1)*c later. */
  lemma SilentWorkerDeadline(t0: int, cfg: Config, generation: int, late: Delays, j: Jitter, s: int, c: int)
    requires cfg.maxDeliver > 0 && WholeMs(cfg) && forall d :: j(d) == d
    requires forall n :: 0 <= late.sweep(n) <= s
    requires forall n :: 0 <= late.claim(n) <= c
    ensures var life := DiesAt(FirstClaim(t0, cfg, generation), cfg, late, j) - t0;
            TimeToDead(cfg) <= life * NANOS_PER_MS
            <= TimeToDead(cfg) + (cfg.maxDeliver * s + (cfg.maxDeliver - 1) * c) * NANOS_PER_MS
  {
    var m := cfg.maxDeliver;
    SilentRowDies(FirstClaim(t0, cfg, generation), cfg, late, j);
    WaitsInMs(cfg, j, m - 1);
    SumBounds(late.sweep, 1, m + 1, s);
    SumBounds(late.claim, 1, m, c);
    LifeInNanos(m, Millis(cfg.ackWait), cfg.ackWait, Releases(cfg.backoff, j, 1, m),
                Sum(late.sweep, 1, m + 1), Sum(late.claim, 1, m), s, c);
  }

  /** The exact case: with no delays at all it dies TimeToDead after its first delivery. */
  lemma PromptWorkerDeadline(t0: int, cfg: Config, generation: int)
    requires cfg.maxDeliver > 0 && WholeMs(cfg)
    ensures (DiesAt(FirstClaim(t0, cfg, generation), cfg, Delays(n => 0, n => 0), d => d) - t0) * NANOS_PER_MS
            == TimeToDead(cfg)
  {
    SilentWorkerDeadline(t0, cfg, generation, Delays(n => 0, n => 0), d => d, 0, 0);
  }
}
