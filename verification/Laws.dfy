/** The laws of the tables, column by column: which commands change what, exactly, and what
    that means over every run. They are stated on the tables and the commands' arguments
    alone. */
module Laws {
  import opened Common
  import opened Delivery
  import opened Ordered
  import opened Broker
  import opened BrokerInvariant

  // ---- messages -----------------------------------------------------------------

  /** The commands that delete a stored message `m`. */
  predicate Deletes(s: State, step: Step, m: int) {
    match step
    case Evict(seqs) => m in seqs && m !in s.rows
    case PurgeVictims(victims) => m in victims
    case PurgeRange(upTo) => m <= upTo
    case _ => false
  }

  lemma RangePurgeDeletes(s: State, upTo: int, m: int)
    requires Ranges(s)
    ensures var t := PurgeRangeStep(s, upTo);
            && t.next == s.next
            && (m in t.msgs <==> m in s.msgs && m > upTo)
            && (m in t.msgs ==> t.msgs[m] == s.msgs[m])
  {
  }

  lemma FetchStores(s: State, now: int, batch: nat, maxBytes: int, limit: nat)
    ensures var t := FetchStep(s, now, batch, maxBytes, limit);
            t.msgs == s.msgs && t.next == s.next && t.generation == s.generation && t.cfg == s.cfg
            && t.maxAckWait == s.maxAckWait
  {
  }

  /** One command stores or deletes exactly what it names, and alters no stored message. */
  lemma StoredStep(s: State, step: Step, m: int)
    requires Ranges(s) && Enabled(s, step)
    ensures var t := Next(s, step);
            && (m in t.msgs <==> (m in s.msgs && !Deletes(s, step, m)) || (step.Publish? && m == s.next))
            && (m in t.msgs ==> t.msgs[m] == if m in s.msgs then s.msgs[m] else step.m)
            && t.next == s.next + if step.Publish? then 1 else 0
  {
    match step
    case Fetch(now, batch, maxBytes, limit) => FetchStores(s, now, batch, maxBytes, limit);
    case PurgeRange(upTo) => RangePurgeDeletes(s, upTo, m);
    case _ =>
  }

  lemma RunStoredStep(trace: seq<State>, steps: seq<Step>, n: nat, m: int)
    requires Run(trace, steps) && n < |steps|
    ensures var s, t, step := trace[n], trace[n + 1], steps[n];
            && (m in s.msgs ==> m < s.next)
            && (m in t.msgs <==> (m in s.msgs && !Deletes(s, step, m)) || (step.Publish? && m == s.next))
            && (m in t.msgs ==> t.msgs[m] == if m in s.msgs then s.msgs[m] else step.m)
            && t.next == s.next + if step.Publish? then 1 else 0
  {
    RunKeeps(trace, steps, n);
    assert Follows(trace, steps, n);
    StoredStep(trace[n], steps[n], m);
  }

  /** Over any run: a message once stored is stored exactly until an eviction names it while
      no delivery needs it, or a purge covers it; it never changes and never comes back. */
  lemma {:induction false} StoredUntilDeleted(trace: seq<State>, steps: seq<Step>, i: nat, k: nat, m: int)
    requires Run(trace, steps) && i <= k < |trace| && m in trace[i].msgs
    ensures m in trace[k].msgs <==> forall n | i <= n < k :: !Deletes(trace[n], steps[n], m)
    ensures m in trace[k].msgs ==> trace[k].msgs[m] == trace[i].msgs[m]
    ensures m < trace[k].next
    decreases k
  {
    if i < k {
      StoredUntilDeleted(trace, steps, i, k - 1, m);
      RunStoredStep(trace, steps, k - 1, m);
    } else {
      RunKeeps(trace, steps, i);
    }
  }

  /** And what is stored was there from the start or is what some publish brought, under the
      number that was next. */
  lemma {:induction false} StoredWasPublished(trace: seq<State>, steps: seq<Step>, k: nat, m: int)
    requires Run(trace, steps) && k < |trace| && m in trace[k].msgs && m !in trace[0].msgs
    ensures exists n :: 0 <= n < k && steps[n] == Publish(trace[k].msgs[m]) && trace[n].next == m
  {
    RunStoredStep(trace, steps, k - 1, m);
    if m in trace[k - 1].msgs {
      StoredWasPublished(trace, steps, k - 1, m);
      var n :| 0 <= n < k - 1 && steps[n] == Publish(trace[k - 1].msgs[m]) && trace[n].next == m;
      assert steps[n] == Publish(trace[k].msgs[m]);
    }
  }

  // ---- delivery rows ------------------------------------------------------------

  predicate Exhausted(s: State, row: Row) {
    s.cfg.maxDeliver > 0 && row.attempts >= s.cfg.maxDeliver
  }

  predicate InRange(nak: NakDelay) {
    nak.Explicit? ==> 0 <= nak.delay <= MAX_NAK_DELAY
  }

  /** The undelivered rows above `q`. */
  function UndeliveredAbove(s: State, q: int): set<int> {
    set p | p in s.rows && s.rows[p].state == Ready && s.rows[p].attempts == 0 && p > q
  }

  /** The commands that take row `q` away. */
  predicate Ends(s: State, step: Step, q: int)
    requires q in s.rows
  {
    var row := s.rows[q];
    match step
    case Settle(token, verb, nak, _, _, sink) =>
      && token == Token(q, row.attempts, s.generation) && row.generation == s.generation
      && (verb == AckVerb || (verb == TermVerb && sink)
          || (verb == NakVerb && sink && row.state == Inflight && Exhausted(s, row) && InRange(nak)))
    case Sweep(p, nowMs, _, sink) =>
      && p == q && sink && row.state == Inflight && row.visibleAt <= nowMs
      && row.generation == s.generation && Exhausted(s, row)
    case Retire(p, sink) =>
      p == q && sink && row.state == Ready && row.generation == s.generation && Exhausted(s, row)
    case Update(cfg) =>
      && cfg.maxAckPending < s.cfg.maxAckPending && row.state == Ready && row.attempts == 0
      && |UndeliveredAbove(s, q)| < |s.rows| - cfg.maxAckPending
    case Seek(_) => true
    case PurgeRange(upTo) => q <= upTo
    case PurgeVictims(victims) => q in victims
    case _ => false
  }

  lemma FetchAddsRows(s: State, now: int, batch: nat, maxBytes: int, limit: nat, q: int)
    requires Ranges(s) && RowsSound(s) && limit > 0
    ensures var t := FetchStep(s, now, batch, maxBytes, limit);
            && s.cursor <= t.cursor <= s.next
            && (q in t.rows <==> q in s.rows || (q in s.msgs && s.msgs[q].wanted && s.cursor <= q < t.cursor))
  {
    if |s.rows| < s.cfg.maxAckPending {
      TopUpExact(s, limit);
    }
  }

  /** A shrink drops an undelivered row exactly when fewer undelivered ones lie above it than
      there are rows too many. */
  lemma ShrinkDropsIff(s: State, bound: int, q: int)
    requires q in s.rows && bound >= 0
    ensures q !in ShrinkTo(s.rows, s.cursor, bound).rows <==>
            s.rows[q].state == Ready && s.rows[q].attempts == 0 && |UndeliveredAbove(s, q)| < |s.rows| - bound
  {
    var d, excess := Droppable(s.rows), |s.rows| - bound;
    if excess > 0 && |d| > 0 && q in d {
      var dropped := if excess > |d| then |d| else excess;
      var lowest := RewindTarget(s.rows, dropped);
      var top := AtOrAbove(d, lowest);
      if q >= lowest {
        SubsetSize(UndeliveredAbove(s, q), top - {q});
      } else {
        SubsetSize(top, UndeliveredAbove(s, q));
        SubsetSize(top, d - {q});
      }
    }
  }

  lemma SettleEnds(s: State, token: Token, verb: Verb, nak: NakDelay, j: Jitter, at: int, sink: bool, q: int)
    requires q in s.rows
    ensures q !in SettleStep(s, token, verb, nak, j, at, sink).rows <==> Ends(s, Settle(token, verb, nak, j, at, sink), q)
  {
  }

  /** A command takes a pending row away exactly in these cases. */
  lemma RowEndsIff(s: State, step: Step, q: int)
    requires Inv(s) && Enabled(s, step) && q in s.rows
    ensures q !in Next(s, step).rows <==> Ends(s, step, q)
  {
    match step
    case Fetch(now, batch, maxBytes, limit) => FetchAddsRows(s, now, batch, maxBytes, limit, q);
    case Settle(token, verb, nak, j, at, sink) => SettleEnds(s, token, verb, nak, j, at, sink, q);
    case Update(cfg) =>
      if cfg.maxAckPending < s.cfg.maxAckPending {
        ShrinkDropsIff(s, cfg.maxAckPending, q);
      }
    case _ =>
  }

  /** Only a fetch adds rows: those of the wanted messages its cursor passed. */
  lemma RowBeginsIff(s: State, step: Step, q: int)
    requires Inv(s) && Enabled(s, step) && q !in s.rows
    ensures var t := Next(s, step);
            q in t.rows <==> step.Fetch? && q in s.msgs && s.msgs[q].wanted && s.cursor <= q < t.cursor
  {
    match step
    case Fetch(now, batch, maxBytes, limit) => FetchAddsRows(s, now, batch, maxBytes, limit, q);
    case Update(cfg) =>
      if cfg.maxAckPending < s.cfg.maxAckPending {
        var r := Shrink.ShrinkExact(s.rows, s.cursor, cfg.maxAckPending);
      }
    case _ =>
  }

  /** Over any run, a delivery that is pending and later is not was taken by such a command
      in between. */
  lemma {:induction false} PendingUntilEnded(trace: seq<State>, steps: seq<Step>, i: nat, k: nat, q: int)
    requires Run(trace, steps) && i <= k < |trace| && q in trace[i].rows && q !in trace[k].rows
    ensures exists n :: i <= n < k && q in trace[n].rows && Ends(trace[n], steps[n], q)
    decreases k
  {
    if q in trace[k - 1].rows {
      RunKeeps(trace, steps, k - 1);
      assert Follows(trace, steps, k - 1);
      RowEndsIff(trace[k - 1], steps[k - 1], q);
    } else {
      PendingUntilEnded(trace, steps, i, k - 1, q);
    }
  }

  // ---- cursor, generation, configuration ----------------------------------------

  /** A seek or a purge of at least one of the consumer's rows. */
  ghost predicate Bumps(s: State, step: Step) {
    || step.Seek?
    || ((step.PurgeRange? || step.PurgeVictims?) && exists q :: q in s.rows && Ends(s, step, q))
  }

  lemma GenerationStep(s: State, step: Step)
    requires Inv(s) && Enabled(s, step)
    ensures Next(s, step).generation == s.generation + if Bumps(s, step) then 1 else 0
  {
    match step
    case Fetch(now, batch, maxBytes, limit) => FetchStores(s, now, batch, maxBytes, limit);
    case PurgeRange(upTo) =>
      var upper := PurgeBound(s, upTo);
      if q :| q in s.rows && Ends(s, step, q) {
        assert q in UpTo(s, upper);
      } else {
        assert forall q | q in s.rows :: q > upTo && q !in UpTo(s, upper);
      }
    case PurgeVictims(victims) =>
      if q :| q in s.rows && Ends(s, step, q) {
        assert q in victims;
      } else {
        assert forall q | q in s.rows :: q !in victims;
      }
    case _ =>
  }

  lemma ConfigStep(s: State, step: Step)
    ensures Next(s, step).cfg == if step.Update? then step.cfg else s.cfg
    ensures Next(s, step).maxAckWait == s.maxAckWait
  {
    if step.Fetch? {
      FetchStores(s, step.now, step.batch, step.maxBytes, step.limit);
    }
  }

  /** Where a command leaves the cursor; a fetch's is `TopUpExact`. */
  lemma CursorStep(s: State, step: Step)
    requires Inv(s) && Enabled(s, step)
    ensures var t := Next(s, step);
            match step
            case Fetch(_, _, _, _) => s.cursor <= t.cursor <= s.next
            case Seek(target) => t.cursor == target
            case Update(cfg) =>
              // the lowest row it drops, if any
              && (t.rows == s.rows ==> t.cursor == s.cursor)
              && (t.rows != s.rows ==>
                    && t.cursor in s.rows && t.cursor !in t.rows
                    && forall q | q in s.rows && q !in t.rows :: t.cursor <= q)
            case PurgeRange(upTo) =>
              // past what it deleted, if anything, but never back
              var gone := exists m :: m in s.msgs && m <= upTo;
              var past := if upTo < s.next then upTo + 1 else s.next;
              t.cursor == if gone && past > s.cursor then past else s.cursor
            case _ => t.cursor == s.cursor
  {
    match step
    case Fetch(now, batch, maxBytes, limit) => FetchAddsRows(s, now, batch, maxBytes, limit, 0);
    case Update(cfg) =>
      if cfg.maxAckPending < s.cfg.maxAckPending {
        var r := Shrink.ShrinkExact(s.rows, s.cursor, cfg.maxAckPending);
        ShrunkOrSame(s.rows, r.rows);
      }
    case PurgeRange(upTo) =>
      var upper := PurgeBound(s, upTo);
      if m :| m in s.msgs && m <= upTo {
        assert m <= upper;
      }
    case _ =>
  }

  lemma ShrunkOrSame(rows: map<int, Row>, left: map<int, Row>)
    requires forall q | q in left :: q in rows && left[q] == rows[q]
    ensures |left| <= |rows| && (left != rows ==> |left| < |rows|)
  {
    assert forall q | q in left.Keys :: q in rows.Keys;
    SubsetSize(left.Keys, rows.Keys);
    if |left.Keys| == |rows.Keys| {
      assert forall q | q in rows :: q in left && left[q] == rows[q];
      assert left == rows;
    }
  }

  /** Bumps among the steps from `lo` up to `hi`. */
  ghost function BumpCount(trace: seq<State>, steps: seq<Step>, lo: nat, hi: nat): nat
    requires lo <= hi <= |steps| < |trace|
    decreases hi
  {
    if lo == hi then 0
    else BumpCount(trace, steps, lo, hi - 1) + if Bumps(trace[hi - 1], steps[hi - 1]) then 1 else 0
  }

  /** Over any run the generation counts the seeks and the purges that took a pending row. */
  lemma {:induction false} GenerationCounts(trace: seq<State>, steps: seq<Step>, i: nat, k: nat)
    requires Run(trace, steps) && i <= k < |trace|
    ensures trace[k].generation == trace[i].generation + BumpCount(trace, steps, i, k)
    decreases k
  {
    if i < k {
      GenerationCounts(trace, steps, i, k - 1);
      RunKeeps(trace, steps, k - 1);
      assert Follows(trace, steps, k - 1);
      GenerationStep(trace[k - 1], steps[k - 1]);
    }
  }

  /** A step that can move the cursor back. */
  ghost predicate Rewinds(s: State, step: Step) {
    step.Seek? || (step.Update? && exists q :: q in s.rows && Ends(s, step, q))
  }

  lemma CursorFallsStep(s: State, step: Step)
    requires Inv(s) && Enabled(s, step) && !Rewinds(s, step)
    ensures s.cursor <= Next(s, step).cursor
  {
    CursorStep(s, step);
    if step.Update? {
      var t := Next(s, step);
      if t.rows != s.rows {
        RowEndsIff(s, step, t.cursor);
        assert false;
      }
    }
  }

  lemma RunCursorStep(trace: seq<State>, steps: seq<Step>, n: nat)
    requires Run(trace, steps) && n < |steps| && !Rewinds(trace[n], steps[n])
    ensures trace[n].cursor <= trace[n + 1].cursor
  {
    RunKeeps(trace, steps, n);
    assert Follows(trace, steps, n);
    CursorFallsStep(trace[n], steps[n]);
  }

  /** Over any run the cursor falls only through a seek or a shrink that drops a row. */
  lemma {:induction false} CursorFallsOnlyBy(trace: seq<State>, steps: seq<Step>, i: nat, k: nat)
    requires Run(trace, steps) && i <= k < |trace| && forall n | i <= n < k :: !Rewinds(trace[n], steps[n])
    ensures trace[i].cursor <= trace[k].cursor
    decreases k
  {
    if i < k {
      CursorFallsOnlyBy(trace, steps, i, k - 1);
      RunCursorStep(trace, steps, k - 1);
    }
  }
}
