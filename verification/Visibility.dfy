/** What a fetch delivers, said on the tables alone: nothing before its time, everything due
    that the batch and the byte budget have room for, in seq order. */
module Visibility {
  import opened Delivery
  import opened Ordered
  import opened Broker
  import opened BrokerInvariant
  import opened FetchCommand
  import opened Settlement

  /** The tokens that a step from `s` to `t` handed out. */
  function Handed(s: State, t: State): seq<Token> {
    if |s.minted| <= |t.minted| then t.minted[|s.minted|..] else []
  }

  /** A token for `q` was handed out. */
  predicate Delivers(s: State, t: State, q: int) {
    exists i :: 0 <= i < |Handed(s, t)| && Handed(s, t)[i].seqNo == q
  }

  // ---- the claim ----------------------------------------------------------------

  /** The tokens of a claim, in order, and who gets one. */
  lemma ClaimHands(s: State, chosen: seq<int>, nowMs: int, q: int)
    requires Within(chosen, s.rows.Keys)
    ensures var t := Claim(s, chosen, nowMs);
            && t.minted == s.minted + Handed(s, t) && |Handed(s, t)| == |chosen|
            && (forall i | 0 <= i < |chosen| :: Handed(s, t)[i] == Token(chosen[i], s.rows[chosen[i]].attempts + 1, s.generation))
            && (Delivers(s, t, q) <==> q in Elements(chosen))
  {
    var t := Claim(s, chosen, nowMs);
    assert t.minted[|s.minted|..] == TokensFor(s.rows, chosen, s.generation);
    if q in Elements(chosen) {
      var i :| 0 <= i < |chosen| && chosen[i] == q;
      assert Handed(s, t)[i].seqNo == q;
    }
  }

  /** What one claim does to a row: a due one may get its next attempt, a lease of ack_wait
      from now and one token; any other row, and any row without a token, stays. */
  lemma ClaimExact(s: State, nowMs: int, batch: nat, maxBytes: int, q: int)
    requires q in s.rows
    ensures var t := Claim(s, Chosen(s, nowMs, batch, maxBytes), nowMs); var row := s.rows[q];
            && q in t.rows
            && t.rows[q] == (if Delivers(s, t, q)
                             then Row(Inflight, row.attempts + 1, nowMs + Millis(s.cfg.ackWait), nowMs, row.generation)
                             else row)
            && (Delivers(s, t, q) ==> Due(s, q, nowMs))
  {
    var chosen := Chosen(s, nowMs, batch, maxBytes);
    ClaimHands(s, chosen, nowMs, q);
    ChosenIsPrefix(s, nowMs, batch, maxBytes, q);
  }

  lemma FetchIsClaim(s: State, now: int, batch: nat, maxBytes: int, limit: nat)
    ensures var s1 := ToppedUp(s, limit);
            FetchStep(s, now, batch, maxBytes, limit) == Claim(s1, Chosen(s1, UnixMilli(now), batch, maxBytes), UnixMilli(now))
  {
  }

  /** A fetch delivers a pending row only if it is ready and its time has come; and what it
      does not deliver it leaves alone. */
  lemma FetchRowExact(s: State, now: int, batch: nat, maxBytes: int, limit: nat, q: int)
    requires q in s.rows
    ensures var t := FetchStep(s, now, batch, maxBytes, limit); var row := s.rows[q];
            && q in t.rows
            && t.rows[q] == (if Delivers(s, t, q)
                             then Row(Inflight, row.attempts + 1, UnixMilli(now) + Millis(s.cfg.ackWait), UnixMilli(now), row.generation)
                             else row)
            && (Delivers(s, t, q) ==> q in s.msgs && row.state == Ready && row.visibleAt <= UnixMilli(now))
  {
    TopUpKeepsRows(s, limit);
    var s1, t := ToppedUp(s, limit), FetchStep(s, now, batch, maxBytes, limit);
    FetchIsClaim(s, now, batch, maxBytes, limit);
    ClaimExact(s1, UnixMilli(now), batch, maxBytes, q);
    assert Handed(s, t) == Handed(s1, t);
    assert Delivers(s, t, q) == Delivers(s1, t, q);
  }

  /** Before its time a row is left alone, and no token is handed out for it. */
  lemma HiddenIsLeft(s: State, now: int, batch: nat, maxBytes: int, limit: nat, q: int)
    requires q in s.rows && (s.rows[q].visibleAt > UnixMilli(now) || s.rows[q].state == Inflight)
    ensures var t := FetchStep(s, now, batch, maxBytes, limit);
            q in t.rows && t.rows[q] == s.rows[q] && !Delivers(s, t, q)
  {
    FetchRowExact(s, now, batch, maxBytes, limit, q);
  }

  /** Every token handed out names a row that the same fetch leased, in seq order, on the
      attempt and in the generation it says. */
  lemma TokensMatchRows(s: State, now: int, batch: nat, maxBytes: int, limit: nat)
    ensures var t := FetchStep(s, now, batch, maxBytes, limit); var handed := Handed(s, t);
            && t.minted == s.minted + handed && |handed| <= batch
            && (forall i | 0 <= i < |handed| ::
                  && handed[i].seqNo in t.rows && t.rows[handed[i].seqNo].state == Inflight
                  && handed[i] == Token(handed[i].seqNo, t.rows[handed[i].seqNo].attempts, s.generation))
            && (forall i, k | 0 <= i < k < |handed| :: handed[i].seqNo < handed[k].seqNo)
  {
    var s1, nowMs := ToppedUp(s, limit), UnixMilli(now);
    TopUpKeepsRows(s, limit);
    var chosen := Chosen(s1, nowMs, batch, maxBytes);
    ClaimHands(s1, chosen, nowMs, 0);
    assert forall i | 0 <= i < |chosen| :: chosen[i] in Elements(chosen);
  }

  // ---- nothing due is left behind ------------------------------------------------

  /** The sizes of the messages named by `seqs`, summed. */
  function Weight(s: State, seqs: seq<int>): nat {
    if seqs == [] then 0
    else Weight(s, seqs[..|seqs| - 1]) + if seqs[|seqs| - 1] in s.msgs then s.msgs[seqs[|seqs| - 1]].size else 0
  }

  lemma {:induction false} TotalSnoc(sizes: seq<nat>, lo: nat, hi: nat)
    requires lo <= hi < |sizes|
    ensures Total(sizes, lo, hi + 1) == Total(sizes, lo, hi) + sizes[hi]
    decreases hi - lo
  {
    if lo < hi {
      TotalSnoc(sizes, lo + 1, hi);
    }
  }

  lemma {:induction false} TotalIsWeight(s: State, seqs: seq<int>, k: nat)
    requires Within(seqs, s.msgs.Keys) && k <= |seqs|
    ensures Total(Sizes(s, seqs), 0, k) == Weight(s, seqs[..k])
  {
    if k > 0 {
      TotalIsWeight(s, seqs, k - 1);
      TotalSnoc(Sizes(s, seqs), 0, k - 1);
      assert seqs[..k][..k - 1] == seqs[..k - 1];
    }
  }

  /** A due row that a claim leaves: it comes after all that was taken, and either the batch
      is full or the first row left, due as well, would have burst the byte budget. */
  lemma ClaimIsGreedy(s: State, nowMs: int, batch: nat, maxBytes: int, q: int) returns (p: int)
    requires Due(s, q, nowMs) && q !in Elements(Chosen(s, nowMs, batch, maxBytes))
    ensures var chosen := Chosen(s, nowMs, batch, maxBytes);
            && (forall i | 0 <= i < |chosen| :: chosen[i] < q)
            && (|chosen| == batch
                || (|chosen| > 0 && p <= q && Due(s, p, nowMs) && p !in Elements(chosen)
                    && Weight(s, chosen) + s.msgs[p].size > maxBytes))
  {
    var all, c, chosen := Ascending(Claimable(s, nowMs)), Candidates(s, nowMs, batch), Chosen(s, nowMs, batch, maxBytes);
    ChosenIsPrefix(s, nowMs, batch, maxBytes, q);
    var sizes := Sizes(s, c);
    var k := |chosen|;
    assert chosen == c[..k];
    FitIsMaximal(sizes, 0, 0, maxBytes);
    TotalIsWeight(s, c, k);
    p := q;
    var i := IndexIn(Claimable(s, nowMs), q);
    if k < |c| {
      p := c[k];
      assert p in Claimable(s, nowMs);
      assert all[k] == p && all[i] == q;
    }
  }

  /** A fetch leaves a due row only behind everything it delivered, and only because the
      batch is full or because the first due row left, on top of what was delivered, would
      burst the byte budget. */
  lemma FetchIsGreedy(s: State, now: int, batch: nat, maxBytes: int, limit: nat, q: int) returns (p: int)
    requires Due(FetchStep(s, now, batch, maxBytes, limit), q, UnixMilli(now))
    ensures var t := FetchStep(s, now, batch, maxBytes, limit); var handed := Handed(s, t);
            && (forall i | 0 <= i < |handed| :: handed[i].seqNo < q)
            && (|handed| == batch
                || (|handed| > 0 && p <= q && Due(t, p, UnixMilli(now))
                    && Weight(s, SeqsOf(handed)) + s.msgs[p].size > maxBytes))
  {
    var s1, nowMs := ToppedUp(s, limit), UnixMilli(now);
    TopUpKeepsRows(s, limit);
    var chosen := Chosen(s1, nowMs, batch, maxBytes);
    var t := Claim(s1, chosen, nowMs);
    ClaimHands(s1, chosen, nowMs, q);
    assert q !in Elements(chosen);
    p := ClaimIsGreedy(s1, nowMs, batch, maxBytes, q);
    assert SeqsOf(Handed(s, t)) == chosen;
    SameWeight(s, s1, chosen);
  }

  function SeqsOf(ts: seq<Token>): seq<int> {
    seq(|ts|, i requires 0 <= i < |ts| => ts[i].seqNo)
  }

  lemma {:induction false} SameWeight(s: State, t: State, seqs: seq<int>)
    requires s.msgs == t.msgs
    ensures Weight(s, seqs) == Weight(t, seqs)
  {
    if seqs != [] {
      SameWeight(s, t, seqs[..|seqs| - 1]);
    }
  }

  /** So if batch and byte budget cover all that is due once the table is topped up, every
      row due is delivered. */
  lemma DueIsDelivered(s: State, now: int, batch: nat, maxBytes: int, limit: nat, due: set<int>, q: int)
    requires forall x :: x in due <==> Due(ToppedUp(s, limit), x, UnixMilli(now))
    requires |due| <= batch && Weight(s, Ascending(due)) <= maxBytes && q in due
    ensures Delivers(s, FetchStep(s, now, batch, maxBytes, limit), q)
  {
    var s1, nowMs := ToppedUp(s, limit), UnixMilli(now);
    TopUpKeepsRows(s, limit);
    var c := Ascending(due);
    SameWeight(s, s1, c);
    ChosenIsAllDue(s1, nowMs, batch, maxBytes, due);
    FetchIsClaim(s, now, batch, maxBytes, limit);
    var i := IndexIn(due, q);
    ClaimHands(s1, c, nowMs, q);
    var t := Claim(s1, c, nowMs);
    assert Handed(s, t)[i].seqNo == q;
  }

  lemma ChosenIsAllDue(s: State, nowMs: int, batch: nat, maxBytes: int, due: set<int>)
    requires forall x :: x in due <==> Due(s, x, nowMs)
    requires |due| <= batch && Weight(s, Ascending(due)) <= maxBytes
    ensures Chosen(s, nowMs, batch, maxBytes) == Ascending(due)
  {
    forall x ensures x in Claimable(s, nowMs) <==> x in due {
      assert x in due <==> Due(s, x, nowMs);
    }
    assert Claimable(s, nowMs) == due;
    var c := Candidates(s, nowMs, batch);
    assert c == Ascending(due);
    AllFits(s, c, maxBytes);
  }

  lemma AllFits(s: State, c: seq<int>, maxBytes: int)
    requires Within(c, s.msgs.Keys) && Weight(s, c) <= maxBytes
    ensures Fit(Sizes(s, c), 0, 0, maxBytes) == |c|
  {
    var sizes := Sizes(s, c);
    var k := Fit(sizes, 0, 0, maxBytes);
    FitIsMaximal(sizes, 0, 0, maxBytes);
    TotalIsWeight(s, c, |c|);
    assert c[..|c|] == c;
    if k < |c| {
      TotalGrows(sizes, k + 1);
      TotalSnoc(sizes, 0, k);
      assert false;
    }
  }

  lemma {:induction false} TotalGrows(sizes: seq<nat>, k: nat)
    requires k <= |sizes|
    ensures Total(sizes, 0, k) <= Total(sizes, 0, |sizes|)
    decreases |sizes| - k
  {
    if k < |sizes| {
      TotalGrows(sizes, k + 1);
      TotalSnoc(sizes, 0, k);
    }
  }

  // ---- flow control ---------------------------------------------------------------

  /** A fetch stops short of the head of the stream only if flow control is at its bound or
      the scan limit's worth of messages lie ahead; and it never grows the pending set past
      that bound. */
  lemma FetchReachesHead(s: State, now: int, batch: nat, maxBytes: int, limit: nat)
    requires Ranges(s) && RowsSound(s) && limit > 0
    ensures var t := FetchStep(s, now, batch, maxBytes, limit);
            && (t.cursor < s.next ==>
                  |t.rows| >= s.cfg.maxAckPending || |set m | m in s.msgs && m >= s.cursor| >= limit)
            && (|t.rows| > s.cfg.maxAckPending ==> t.rows.Keys == s.rows.Keys)
  {
    var s1, t := ToppedUp(s, limit), FetchStep(s, now, batch, maxBytes, limit);
    FetchIsClaim(s, now, batch, maxBytes, limit);
    assert t.rows.Keys == s1.rows.Keys;
    assert |t.rows| == |t.rows.Keys| == |s1.rows|;
    if |s.rows| < s.cfg.maxAckPending {
      TopUpBounded(s, limit);
    }
  }

  // ---- over whole runs ------------------------------------------------------------

  /** Nothing hurries `q` up: no seek, no nak of it, and no fetch at `at` or later. */
  predicate Patient(step: Step, q: int, at: int) {
    && !step.Seek?
    && !(step.Settle? && step.verb == NakVerb && step.token.seqNo == q)
    && (step.Fetch? ==> UnixMilli(step.now) < at)
  }

  /** Released for `at`, or no longer pending. */
  ghost predicate Waits(s: State, q: int, row: Row) {
    q in s.claimed && (q in s.rows ==> s.rows[q] == row)
  }

  /** The log grew, and not by a token for `q`. */
  ghost predicate NoTokenFor(s: State, t: State, q: int) {
    s.minted <= t.minted && !Delivers(s, t, q)
  }

  lemma FetchPasses(s: State, now: int, batch: nat, maxBytes: int, limit: nat, q: int, row: Row)
    requires Inv(s) && limit > 0 && Waits(s, q, row) && UnixMilli(now) < row.visibleAt
    ensures var t := FetchStep(s, now, batch, maxBytes, limit); Waits(t, q, row) && NoTokenFor(s, t, q)
  {
    var t := FetchStep(s, now, batch, maxBytes, limit);
    TokensMatchRows(s, now, batch, maxBytes, limit);
    if q in s.rows {
      HiddenIsLeft(s, now, batch, maxBytes, limit, q);
    } else if |s.rows| < s.cfg.maxAckPending {
      TopUpExact(s, limit);
    }
  }

  lemma OtherStepPasses(s: State, step: Step, q: int, row: Row)
    requires Inv(s) && Enabled(s, step) && Waits(s, q, row) && row.state == Ready && row.attempts >= 1
    requires !step.Fetch? && !step.Seek? && !(step.Settle? && step.verb == NakVerb && step.token.seqNo == q)
    ensures var t := Next(s, step); Waits(t, q, row) && t.minted == s.minted
  {
    match step
    case Update(cfg) =>
      if cfg.maxAckPending < s.cfg.maxAckPending {
        var r := Shrink.ShrinkExact(s.rows, s.cursor, cfg.maxAckPending);
      }
    case _ =>
  }

  lemma PatientStep(s: State, step: Step, q: int, row: Row)
    requires Inv(s) && Enabled(s, step) && Waits(s, q, row) && row.state == Ready && row.attempts >= 1
    requires Patient(step, q, row.visibleAt)
    ensures var t := Next(s, step); Waits(t, q, row) && NoTokenFor(s, t, q)
  {
    match step
    case Fetch(now, batch, maxBytes, limit) => FetchPasses(s, now, batch, maxBytes, limit, q, row);
    case _ => OtherStepPasses(s, step, q, row);
  }

  lemma NoTokenTrans(s: State, m: State, t: State, q: int)
    requires NoTokenFor(s, m, q) && NoTokenFor(m, t, q)
    ensures NoTokenFor(s, t, q)
  {
    assert Handed(s, t) == Handed(s, m) + Handed(m, t);
  }

  lemma RunPatientStep(trace: seq<State>, steps: seq<Step>, n: nat, q: int, row: Row)
    requires Run(trace, steps) && n < |steps| && Patient(steps[n], q, row.visibleAt)
    requires Waits(trace[n], q, row) && row.state == Ready && row.attempts >= 1
    ensures Waits(trace[n + 1], q, row) && NoTokenFor(trace[n], trace[n + 1], q)
  {
    RunKeeps(trace, steps, n);
    assert Follows(trace, steps, n);
    PatientStep(trace[n], steps[n], q, row);
  }

  /** Over any run, from a state in which `q` is released for `row.visibleAt` on: no fetch
      before that time delivers it, and it stays as it is while it stays pending, until a nak
      by its worker or a seek. */
  lemma {:induction false} HiddenUntilDue(trace: seq<State>, steps: seq<Step>, i: nat, k: nat, q: int, row: Row)
    requires Run(trace, steps) && i <= k < |trace|
    requires q in trace[i].rows && trace[i].rows[q] == row && row.state == Ready && row.attempts >= 1
    requires forall n | i <= n < k :: Patient(steps[n], q, row.visibleAt)
    ensures NoTokenFor(trace[i], trace[k], q) && Waits(trace[k], q, row)
    decreases k
  {
    if i < k {
      HiddenUntilDue(trace, steps, i, k - 1, q, row);
      RunPatientStep(trace, steps, k - 1, q, row);
      NoTokenTrans(trace[i], trace[k - 1], trace[k], q);
    } else {
      RunKeeps(trace, steps, i);
    }
  }

  /** A nak or an expiry with attempts left, at step i, and when it lets the row go again:
      the schedule's wait `d` later, jittered. */
  predicate Releases(s: State, step: Step, q: int, d: int, due: int) {
    && CanRetry(s, q) && s.rows[q].state == Inflight && ScheduledWait(s.cfg.backoff, s.rows[q].attempts, d)
    && match step
       case Settle(token, verb, nak, j, now, _) =>
         token == TokenOf(s, q) && verb == NakVerb && nak == Scheduled && due == UnixMilli(now + j(d))
       case Sweep(p, nowMs, j, _) => p == q && s.rows[q].visibleAt <= nowMs && due == nowMs + Millis(j(d))
       case _ => false
  }

  lemma ReleaseIs(s: State, step: Step, q: int, d: int, due: int)
    requires Releases(s, step, q, d, due)
    ensures Next(s, step) == ReadyAt(s, q, due)
  {
    match step
    case Settle(_, _, _, j, now, sink) => NakWaits(s, q, j, now, sink, d);
    case Sweep(_, nowMs, j, sink) => SweepWaits(s, q, nowMs, j, sink, d);
  }

  /** Every retry waits: after such a failure, in every run, no fetch before `due` delivers
      the message again, until its worker naks once more or the operator seeks. */
  lemma RetryWaits(trace: seq<State>, steps: seq<Step>, i: nat, k: nat, q: int, d: int, due: int)
    requires Run(trace, steps) && i < k < |trace| && Releases(trace[i], steps[i], q, d, due)
    requires forall n | i < n < k :: Patient(steps[n], q, due)
    ensures NoTokenFor(trace[i], trace[k], q)
    ensures q in trace[k].rows ==> trace[k].rows[q].state == Ready && trace[k].rows[q].visibleAt == due
  {
    assert Follows(trace, steps, i);
    ReleaseIs(trace[i], steps[i], q, d, due);
    HiddenUntilDue(trace, steps, i + 1, k, q, trace[i + 1].rows[q]);
    assert Handed(trace[i], trace[i + 1]) == [];
    NoTokenTrans(trace[i], trace[i + 1], trace[k], q);
  }
}
