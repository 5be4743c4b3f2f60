/** Building runs of the broker: single fetches whose outcome is known exactly. */
module Scenarios {
  import opened Delivery
  import opened Ordered
  import opened Broker
  import opened BrokerInvariant

  // the default limits of a fetch
  const SCAN_LIMIT: nat := 4096
  const FETCH_BYTES: nat := 8 * 1024 * 1024

  /** Half a minute per lease, five deliveries a second apart, ten pending. */
  function Usual(): Config {
    Config(30_000 * MS, 5, [1000 * MS], 10)
  }

  const HOUR: int := 3_600_000 * MS

  lemma FollowsOn(trace: seq<State>, steps: seq<Step>, step: Step, t: State, i: nat)
    requires i < |steps| && |trace| == |steps| + 1 && Follows(trace, steps, i)
    ensures Follows(trace + [t], steps + [step], i)
  {
    assert (trace + [t])[i] == trace[i] && (trace + [t])[i + 1] == trace[i + 1];
    assert (steps + [step])[i] == steps[i];
  }

  /** A run goes on with any enabled step. */
  lemma Extend(trace: seq<State>, steps: seq<Step>, step: Step, t: State) returns (trace': seq<State>, steps': seq<Step>)
    requires Run(trace, steps) && Enabled(trace[|steps|], step) && t == Next(trace[|steps|], step)
    ensures steps' == steps + [step] && Run(trace', steps') && trace'[|steps'|] == t && trace'[0] == trace[0]
  {
    trace', steps' := trace + [t], steps + [step];
    forall i | 0 <= i < |steps'| ensures Follows(trace', steps', i) {
      if i < |steps| {
        FollowsOn(trace, steps, step, t, i);
      }
    }
  }

  /** When one row is claimable, a batch of one claims it, whatever the byte budget. */
  lemma ChosenSingle(s: State, nowMs: int, q: int)
    requires Claimable(s, nowMs) == {q}
    ensures Chosen(s, nowMs, 1, FETCH_BYTES) == [q]
  {
    var all := Ascending(Claimable(s, nowMs));
    assert all == [q];
  }

  /** The lease a claim at `now` gives. */
  function Lease(s: State, attempts: int, now: int, generation: int): Row {
    Row(Inflight, attempts, UnixMilli(now) + Millis(s.cfg.ackWait), UnixMilli(now), generation)
  }

  lemma ClaimOne(s: State, now: int, q: int)
    requires Claimable(s, UnixMilli(now)) == {q}
    ensures var t := Claim(s, Chosen(s, UnixMilli(now), 1, FETCH_BYTES), UnixMilli(now));
            && t.rows == s.rows[q := Lease(s, s.rows[q].attempts + 1, now, s.rows[q].generation)]
            && t.minted == s.minted + [Token(q, s.rows[q].attempts + 1, s.generation)]
            && t == s.(rows := t.rows, claimed := s.claimed + {q}, minted := t.minted)
  {
    ChosenSingle(s, UnixMilli(now), q);
    assert Elements([q]) == {q};
  }

  lemma TopUpOne(s: State, q: int)
    requires Inv(s)
    requires q in s.msgs && s.msgs[q].wanted && Ahead(s) == {q} && |s.rows| < s.cfg.maxAckPending
    ensures TopUp(s, SCAN_LIMIT) == s.(rows := s.rows[q := FreshRow(s.generation)], cursor := s.next)
  {
    var t := TopUp(s, SCAN_LIMIT);
    TopUpExact(s, SCAN_LIMIT);
    TopUpCatchesUp(s, SCAN_LIMIT);
    assert q in Ahead(s);
    forall r | r in t.rows && r !in s.rows ensures r == q {
      assert r in Ahead(s);
    }
    OneMoreRow(t.rows, s.rows, q, FreshRow(s.generation));
  }

  lemma OneMoreRow(m: map<int, Row>, rows: map<int, Row>, q: int, row: Row)
    requires q in m && q !in rows && m[q] == row
    requires forall r | r in rows :: r in m && m[r] == rows[r]
    requires forall r | r in m && r !in rows :: r == q
    ensures m == rows[q := row]
  {
    var n := rows[q := row];
    assert forall r | r in m :: r in n && m[r] == n[r];
    assert forall r | r in n :: r in m;
  }

  lemma OnlyFreshIsClaimable(s: State, q: int, nowMs: int)
    requires nowMs >= 0 && q in s.msgs && q in s.rows && s.rows[q] == FreshRow(s.generation)
    requires forall r | r in s.rows && r != q :: s.rows[r].state == Inflight
    ensures Claimable(s, nowMs) == {q}
  {
    assert q in Claimable(s, nowMs);
    forall r | r in Claimable(s, nowMs) ensures r == q {
      assert s.rows[r].state == Ready;
    }
  }

  /** The fetch command when flow control leaves room. */
  lemma FetchIs(s: State, s1: State, now: int)
    requires |s.rows| < s.cfg.maxAckPending && TopUp(s, SCAN_LIMIT) == s1
    ensures FetchStep(s, now, 1, FETCH_BYTES, SCAN_LIMIT) == Claim(s1, Chosen(s1, UnixMilli(now), 1, FETCH_BYTES), UnixMilli(now))
  {
  }

  /** Claiming one fresh row, every other row being out on a lease. */
  lemma ClaimFresh(s: State, now: int, q: int)
    requires now >= 0 && q in s.msgs && q in s.rows && s.rows[q] == FreshRow(s.generation)
    requires forall r | r in s.rows && r != q :: s.rows[r].state == Inflight
    ensures Claim(s, Chosen(s, UnixMilli(now), 1, FETCH_BYTES), UnixMilli(now))
         == s.(rows := s.rows[q := Lease(s, 1, now, s.generation)],
               claimed := s.claimed + {q}, minted := s.minted + [Token(q, 1, s.generation)])
  {
    OnlyFreshIsClaimable(s, q, UnixMilli(now));
    ClaimOne(s, now, q);
  }

  /** The state once message `q` is leased for the first time at `now`. */
  function Fetched(s: State, now: int, q: int): State {
    s.(rows := s.rows[q := Lease(s, 1, now, s.generation)], cursor := s.next,
       claimed := s.claimed + {q}, minted := s.minted + [Token(q, 1, s.generation)])
  }

  lemma FetchedFrom(s: State, s1: State, now: int, q: int)
    requires s1 == s.(rows := s.rows[q := FreshRow(s.generation)], cursor := s.next)
    ensures s1.(rows := s1.rows[q := Lease(s1, 1, now, s1.generation)],
                claimed := s1.claimed + {q}, minted := s1.minted + [Token(q, 1, s1.generation)])
         == Fetched(s, now, q)
  {
    var row := Lease(s, 1, now, s.generation);
    assert s.rows[q := FreshRow(s.generation)][q := row] == s.rows[q := row];
  }

  lemma FetchFresh(s: State, s1: State, now: int, q: int)
    requires s1 == s.(rows := s.rows[q := FreshRow(s.generation)], cursor := s.next)
    requires |s.rows| < s.cfg.maxAckPending && TopUp(s, SCAN_LIMIT) == s1 && now >= 0 && q in s.msgs
    requires forall r | r in s.rows :: s.rows[r].state == Inflight
    ensures FetchStep(s, now, 1, FETCH_BYTES, SCAN_LIMIT) == Fetched(s, now, q)
  {
    FetchIs(s, s1, now);
    ClaimFresh(s1, now, q);
    FetchedFrom(s, s1, now, q);
  }

  /** A fetch of the only message ahead, every other row being out on a lease. */
  lemma FetchOne(s: State, now: int, q: int)
    requires Inv(s) && now >= 0
    requires q in s.msgs && s.msgs[q].wanted && Ahead(s) == {q} && |s.rows| < s.cfg.maxAckPending
    requires forall r | r in s.rows :: s.rows[r].state == Inflight
    ensures FetchStep(s, now, 1, FETCH_BYTES, SCAN_LIMIT) == Fetched(s, now, q)
  {
    TopUpOne(s, q);
    FetchFresh(s, s.(rows := s.rows[q := FreshRow(s.generation)], cursor := s.next), now, q);
  }

  /** The state once the ready row `q` is leased again at `now`. */
  function Refetched(s: State, now: int, q: int): State
    requires q in s.rows
  {
    s.(rows := s.rows[q := Lease(s, s.rows[q].attempts + 1, now, s.rows[q].generation)],
       claimed := s.claimed + {q}, minted := s.minted + [Token(q, s.rows[q].attempts + 1, s.generation)])
  }

  /** A fetch of the only claimable row with flow control at its bound. */
  lemma RefetchOne(s: State, now: int, q: int)
    requires |s.rows| >= s.cfg.maxAckPending && Claimable(s, UnixMilli(now)) == {q}
    ensures q in s.rows && FetchStep(s, now, 1, FETCH_BYTES, SCAN_LIMIT) == Refetched(s, now, q)
  {
    assert q in Claimable(s, UnixMilli(now));
    ClaimOne(s, now, q);
  }

  lemma TopUpNothing(s: State)
    requires Ranges(s) && RowsSound(s) && s.cursor == s.next
    ensures TopUp(s, SCAN_LIMIT) == s
  {
    TopUpExact(s, SCAN_LIMIT);
    var t := TopUp(s, SCAN_LIMIT);
    assert forall r | r in t.rows :: r in s.rows;
    assert t.rows == s.rows;
  }

  /** A fetch of the only claimable row with nothing ahead. */
  lemma FetchReady(s: State, now: int, q: int)
    requires Ranges(s) && RowsSound(s) && s.cursor == s.next && Claimable(s, UnixMilli(now)) == {q}
    ensures q in s.rows && FetchStep(s, now, 1, FETCH_BYTES, SCAN_LIMIT) == Refetched(s, now, q)
  {
    TopUpNothing(s);
    assert q in Claimable(s, UnixMilli(now));
    ClaimOne(s, now, q);
  }

  /** A run goes on by fetching the only message ahead. */
  lemma ExtendFetch(trace: seq<State>, steps: seq<Step>, q: int) returns (trace': seq<State>, steps': seq<Step>)
    requires Run(trace, steps)
    requires var s := trace[|steps|];
             && q in s.msgs && s.msgs[q].wanted && Ahead(s) == {q} && |s.rows| < s.cfg.maxAckPending
             && forall r | r in s.rows :: s.rows[r].state == Inflight
    ensures Run(trace', steps') && trace'[0] == trace[0] && trace'[|steps'|] == Fetched(trace[|steps|], 0, q)
    ensures steps' == steps + [Fetch(0, 1, FETCH_BYTES, SCAN_LIMIT)]
  {
    RunKeeps(trace, steps, |steps|);
    FetchOne(trace[|steps|], 0, q);
    trace', steps' := Extend(trace, steps, Fetch(0, 1, FETCH_BYTES, SCAN_LIMIT), Fetched(trace[|steps|], 0, q));
  }

  /** Nothing ahead, room for one more delivery, and every row out on a lease. */
  ghost predicate Idle(s: State) {
    Ahead(s) == {} && |s.rows| < s.cfg.maxAckPending && forall r | r in s.rows :: s.rows[r].state == Inflight
  }

  lemma PublishAhead(s: State, m: Msg)
    requires Idle(s) && s.cursor <= s.next
    ensures Ahead(PublishStep(s, m)) == {s.next}
  {
    var t := PublishStep(s, m);
    forall q | q in Ahead(t) ensures q == s.next {
      assert q != s.next ==> q in Ahead(s);
    }
  }

  /** The only message of a stream, published and delivered. */
  lemma PublishAndFetch(trace: seq<State>, steps: seq<Step>, m: Msg) returns (trace': seq<State>, steps': seq<Step>)
    requires Run(trace, steps) && m.wanted && Idle(trace[|steps|])
    ensures Run(trace', steps') && trace'[0] == trace[0]
    ensures trace'[|steps'|] == Fetched(PublishStep(trace[|steps|], m), 0, trace[|steps|].next)
    ensures steps' == steps + [Publish(m), Fetch(0, 1, FETCH_BYTES, SCAN_LIMIT)]
  {
    var s := trace[|steps|];
    RunKeeps(trace, steps, |steps|);
    PublishAhead(s, m);
    var t := PublishStep(s, m);
    trace', steps' := Extend(trace, steps, Publish(m), t);
    trace', steps' := ExtendFetch(trace', steps', s.next);
  }

  /** A run goes on with n seeks to the same place, for a consumer without rows or tokens. */
  function Sought(s: State, q: int, n: nat): State {
    if n == 0 then s
    else s.(cursor := q, base := q, generation := s.generation + n, epoch := s.epoch + n)
  }

  lemma {:induction false} ExtendSeeks(trace: seq<State>, steps: seq<Step>, q: int, n: nat) returns (trace': seq<State>, steps': seq<Step>)
    requires Run(trace, steps)
    requires var s := trace[|steps|];
             1 <= q <= s.next && s.rows == map[] && s.minted == [] && s.since == 0 && s.claimed == {} && s.finished == {}
    ensures Run(trace', steps') && trace'[0] == trace[0] && trace'[|steps'|] == Sought(trace[|steps|], q, n)
  {
    if n == 0 {
      trace', steps' := trace, steps;
    } else {
      var s := trace[|steps|];
      trace', steps' := ExtendSeeks(trace, steps, q, n - 1);
      assert SeekStep(Sought(s, q, n - 1), q) == Sought(s, q, n);
      trace', steps' := Extend(trace', steps', Seek(q), Sought(s, q, n));
    }
  }

  /** A consumer just created on an empty stream. */
  function EmptyStream(cfg: Config, maxAckWait: int): State {
    State(1, map[], 1, 1, cfg, maxAckWait, map[], 0, 1, 0, {}, {}, [], [])
  }
}
