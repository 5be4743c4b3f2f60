/** What every step of the broker keeps. */
module BrokerInvariant {
  import opened Common
  import opened Delivery
  import opened Ordered
  import opened Broker
  import Shrink

  ghost predicate Ranges(s: State) {
    && 1 <= s.base <= s.cursor <= s.next && s.generation >= 1
    && ValidConfig(s.cfg, s.maxAckWait)
    && forall m | m in s.msgs :: 1 <= m < s.next
  }

  /** A row that was never claimed is READY and immediately visible. */
  ghost predicate RowShape(row: Row) {
    && row.attempts >= 0
    && (row.attempts == 0 ==> row.state == Ready && row.visibleAt == 0 && row.deliveredAt == 0)
  }

  /** Rows lie below the cursor and refer to live, wanted messages. */
  ghost predicate RowsSound(s: State) {
    forall q | q in s.rows ::
      && s.base <= q < s.cursor && q in s.msgs && s.msgs[q].wanted
      && RowShape(s.rows[q]) && 1 <= s.rows[q].generation <= s.generation
  }

  /** Claims run ahead of nothing: each claimed seq is below every undelivered row. */
  ghost predicate ClaimsOrdered(s: State) {
    && (forall c | c in s.claimed :: s.base <= c < s.cursor)
    && (forall c, q | c in s.claimed && q in s.rows && s.rows[q].attempts == 0 :: c < q)
    && (forall q | q in s.rows && s.rows[q].attempts > 0 :: q in s.claimed)
  }

  /** Every wanted live message the cursor passed is pending or was terminally removed. */
  ghost predicate Accounted(s: State) {
    && s.finished <= s.claimed
    && (forall q | q in s.finished :: q !in s.rows)
    && (forall m | m in s.msgs && s.msgs[m].wanted && s.base <= m < s.cursor :: m in s.rows || m in s.finished)
  }

  ghost predicate TokenFits(s: State, t: Token) {
    && 1 <= t.generation <= s.generation && t.attempt >= 1
    && (t.generation == s.generation ==>
          && t.seqNo in s.claimed && (t.seqNo in s.rows || t.seqNo in s.finished)
          && (t.seqNo in s.rows ==> t.attempt <= s.rows[t.seqNo].attempts))
  }

  /** No token is minted twice, none is ahead of its row, and a delivered row of the
      current generation had its token minted. */
  ghost predicate TokensFenced(s: State) {
    && (forall i, j | 0 <= i < j < |s.minted| :: s.minted[i] != s.minted[j])
    && (forall i | 0 <= i < |s.minted| :: TokenFits(s, s.minted[i]))
    && (forall q | q in s.rows && s.rows[q].attempts > 0 && s.rows[q].generation == s.generation ::
          Token(q, s.rows[q].attempts, s.generation) in s.minted)
  }

  /** Within one epoch (between seeks) a seq is terminally removed at most once. */
  ghost predicate RemovedOnce(s: State) {
    && (forall i, j | 0 <= i < j < |s.removals| :: s.removals[i] != s.removals[j])
    && (forall i | 0 <= i < |s.removals| ::
          s.removals[i].1 <= s.epoch && (s.removals[i].1 == s.epoch ==> s.removals[i].0 in s.finished))
  }

  /** No lease outlives its claim by more than max_ack_wait. */
  ghost predicate Leased(s: State) {
    forall q | q in s.rows && s.rows[q].state == Inflight ::
      s.rows[q].visibleAt <= s.rows[q].deliveredAt + Millis(s.maxAckWait)
  }

  ghost predicate Inv(s: State) {
    && Ranges(s) && RowsSound(s) && ClaimsOrdered(s) && Accounted(s)
    && TokensFenced(s) && RemovedOnce(s) && Leased(s)
  }

  lemma InitialHolds(s: State)
    requires Initial(s)
    ensures Inv(s)
  {
  }

  // ---- one row changes ----------------------------------------------------------

  lemma WithRowKeeps(s: State, q: int, row: Row)
    requires Inv(s) && q in s.rows
    requires row.attempts == s.rows[q].attempts > 0 && row.generation == s.rows[q].generation
    requires row.state == Inflight ==> row.visibleAt <= row.deliveredAt + Millis(s.maxAckWait)
    ensures Inv(WithRow(s, q, row))
  {
  }

  lemma FinishKeeps(s: State, q: int)
    requires Inv(s) && q in s.rows && s.rows[q].attempts > 0
    ensures Inv(Finish(s, q))
  {
    var t := Finish(s, q);
    assert forall i | 0 <= i < |s.minted| :: TokenFits(s, s.minted[i]) ==> TokenFits(t, s.minted[i]);
    assert RemovedOnce(t);
  }

  lemma SettleKeeps(s: State, token: Token, verb: Verb, nak: NakDelay, j: Jitter, now: int, sink: bool)
    requires Inv(s) && token.attempt >= 1
    ensures Inv(SettleStep(s, token, verb, nak, j, now, sink))
  {
    var plan := SettlePlan(s, token, verb, nak, j, now);
    if SettleStep(s, token, verb, nak, j, now, sink) != s && plan.Plan? && token.seqNo in s.rows {
      var row := s.rows[token.seqNo];
      match plan.action
      case Remove(_, _) => FinishKeeps(s, token.seqNo);
      case Dead(_) => FinishKeeps(s, token.seqNo);
      case Release(at) => WithRowKeeps(s, token.seqNo, row.(state := Ready, visibleAt := at));
      case Prolong(at) => WithRowKeeps(s, token.seqNo, row.(visibleAt := at));
      case Noop =>
    }
  }

  lemma SweepKeeps(s: State, q: int, nowMs: int, j: Jitter, sink: bool)
    requires Inv(s)
    ensures Inv(SweepStep(s, q, nowMs, j, sink))
  {
    if q in s.rows && s.rows[q].state == Inflight && s.rows[q].visibleAt <= nowMs {
      match DecideSweep(s.rows[q], s.cfg, s.generation, nowMs, j)
      case SweepDead(_) => FinishKeeps(s, q);
      case Redeliver(at) => WithRowKeeps(s, q, s.rows[q].(state := Ready, visibleAt := at));
      case _ =>
    }
  }

  lemma RetireKeeps(s: State, q: int, sink: bool)
    requires Inv(s)
    ensures Inv(RetireStep(s, q, sink))
  {
    if RetireStep(s, q, sink) != s {
      FinishKeeps(s, q);
    }
  }

  // ---- fetch --------------------------------------------------------------------

  /** `q` is a wanted message that the scan listed in positions `lo` to `hi`. */
  ghost predicate ListedIn(q: int, scan: seq<int>, lo: nat, hi: nat, msgs: map<int, Msg>)
    requires lo <= hi <= |scan|
  {
    q in msgs && msgs[q].wanted && lo < hi && scan[lo] <= q <= scan[hi - 1]
  }

  /** Admission adds exactly the wanted messages scanned before it stopped, as fresh
      rows, and leaves every other row alone. */
  lemma {:induction false} AdmitAdds(scan: seq<int>, at: nat, msgs: map<int, Msg>, rows: map<int, Row>, bound: int, generation: int)
    requires at <= |scan| && Within(scan, msgs.Keys) && Increasing(scan)
    ensures var a := Admit(scan, at, msgs, rows, bound, generation);
            && at <= a.stop <= |scan|
            && (forall q | q in rows :: q in a.rows && a.rows[q] == rows[q])
            && (forall i | at <= i < a.stop && msgs[scan[i]].wanted :: scan[i] in a.rows)
            && (forall q | q in a.rows && q !in rows ::
                  a.rows[q] == FreshRow(generation) && ListedIn(q, scan, at, a.stop, msgs))
    decreases |scan| - at
  {
    AdmitStops(scan, at, msgs, rows, bound, generation);
    if at < |scan| {
      if !msgs[scan[at]].wanted {
        AdmitAdds(scan, at + 1, msgs, rows, bound, generation);
      } else if |rows| < bound {
        var rows' := if scan[at] in rows then rows else rows[scan[at] := FreshRow(generation)];
        AdmitAdds(scan, at + 1, msgs, rows', bound, generation);
      }
    }
  }

  /** Admission never grows the pending set past the bound, and declines only at it. */
  lemma {:induction false} AdmitBounded(scan: seq<int>, at: nat, msgs: map<int, Msg>, rows: map<int, Row>, bound: int, generation: int)
    requires at <= |scan| && Within(scan, msgs.Keys)
    ensures var a := Admit(scan, at, msgs, rows, bound, generation);
            && (|rows| <= bound ==> |a.rows| <= bound)
            && a.stop <= |scan|
            && (a.stop < |scan| ==> |a.rows| >= bound && msgs[scan[a.stop]].wanted)
    decreases |scan| - at
  {
    if at < |scan| {
      if !msgs[scan[at]].wanted {
        AdmitBounded(scan, at + 1, msgs, rows, bound, generation);
      } else if |rows| < bound {
        var rows' := if scan[at] in rows then rows else rows[scan[at] := FreshRow(generation)];
        assert |rows'| <= |rows| + 1;
        AdmitBounded(scan, at + 1, msgs, rows', bound, generation);
      }
    }
  }

  /** The scan lists every message from the cursor up to where it was cut. */
  lemma ScanComplete(msgs: map<int, Msg>, cursor: int, limit: nat, m: int) returns (i: nat)
    requires m in msgs && m >= cursor && limit > 0
    ensures var scan := ScanFrom(msgs, cursor, limit);
            if i < |scan| then scan[i] == m else |scan| == limit && scan[limit - 1] < m
  {
    var ahead := set x | x in msgs && x >= cursor;
    i := IndexIn(ahead, m);
  }

  /** The new cursor separates the scanned messages admission passed from the rest. */
  lemma NextCursorCuts(scan: seq<int>, stop: nat, limit: nat, cursor: int, next: int)
    requires Increasing(scan) && stop <= |scan| <= limit && limit > 0 && cursor <= next
    requires forall i | 0 <= i < |scan| :: cursor <= scan[i] < next
    ensures var c := NextCursor(scan, stop, limit, cursor, next);
            && cursor <= c <= next
            && (forall i | 0 <= i < |scan| :: i < stop <==> scan[i] < c)
            && (|scan| == limit ==> c <= scan[limit - 1] + 1)
  {
  }

  /** Top-up moves the cursor to some `c`, and the new rows are exactly the wanted
      messages it passed: flow control delays messages, it never skips one. */
  lemma TopUpExact(s: State, limit: nat)
    requires Ranges(s) && RowsSound(s) && limit > 0
    ensures var t := TopUp(s, limit);
            && s.cursor <= t.cursor <= s.next && t == s.(rows := t.rows, cursor := t.cursor)
            && (forall q | q in s.rows :: q in t.rows && t.rows[q] == s.rows[q])
            && (forall q | q in t.rows && q !in s.rows ::
                  t.rows[q] == FreshRow(s.generation) && q in s.msgs && s.msgs[q].wanted && s.cursor <= q < t.cursor)
            && (forall m | m in s.msgs && s.msgs[m].wanted && s.cursor <= m < t.cursor :: m in t.rows)
  {
    var scan := ScanFrom(s.msgs, s.cursor, limit);
    assert Within(scan, s.msgs.Keys);
    AdmitAdds(scan, 0, s.msgs, s.rows, s.cfg.maxAckPending, s.generation);
    var a := Admit(scan, 0, s.msgs, s.rows, s.cfg.maxAckPending, s.generation);
    var t := TopUp(s, limit);
    NextCursorCuts(scan, a.stop, limit, s.cursor, s.next);
    forall m | m in s.msgs && s.msgs[m].wanted && s.cursor <= m < t.cursor
      ensures m in t.rows
    {
      var i := ScanComplete(s.msgs, s.cursor, limit, m);
      assert i < |scan| ==> i < a.stop;
    }
  }

  /** The table as the claim finds it: topped up unless flow control is at its bound. */
  ghost function ToppedUp(s: State, limit: nat): State {
    if |s.rows| >= s.cfg.maxAckPending then s else TopUp(s, limit)
  }

  lemma TopUpKeepsRows(s: State, limit: nat)
    ensures var t := ToppedUp(s, limit);
            && t == s.(rows := t.rows, cursor := t.cursor)
            && (forall q | q in s.rows :: q in t.rows && t.rows[q] == s.rows[q])
            && (forall q | q in t.rows && q !in s.rows :: q in s.msgs && t.rows[q] == Row(Ready, 0, 0, 0, s.generation))
  {
    var scan := ScanFrom(s.msgs, s.cursor, limit);
    assert Within(scan, s.msgs.Keys);
    AdmitAdds(scan, 0, s.msgs, s.rows, s.cfg.maxAckPending, s.generation);
  }

  /** Flow control: top-up keeps the pending set within max_ack_pending, and stops short
      of the stream head only at that bound or after a full scan. */
  lemma TopUpBounded(s: State, limit: nat)
    requires |s.rows| <= s.cfg.maxAckPending && limit > 0
    ensures var t := TopUp(s, limit);
            && |t.rows| <= s.cfg.maxAckPending
            && (t.cursor < s.next ==>
                  |t.rows| == s.cfg.maxAckPending || |ScanFrom(s.msgs, s.cursor, limit)| == limit)
  {
    var scan := ScanFrom(s.msgs, s.cursor, limit);
    assert Within(scan, s.msgs.Keys);
    AdmitBounded(scan, 0, s.msgs, s.rows, s.cfg.maxAckPending, s.generation);
  }

  /** The messages at or ahead of the cursor. */
  function Ahead(s: State): set<int> {
    set m | m in s.msgs && m >= s.cursor
  }

  /** With room for everything ahead of the cursor, top-up catches up with the head. */
  lemma TopUpCatchesUp(s: State, limit: nat)
    requires Ranges(s) && RowsSound(s)
    requires |Ahead(s)| < limit && |s.rows| + |Ahead(s)| <= s.cfg.maxAckPending
    ensures TopUp(s, limit).cursor == s.next
  {
    var t := TopUp(s, limit);
    TopUpExact(s, limit);
    TopUpBounded(s, limit);
    var most := s.rows.Keys + Ahead(s);
    forall q | q in t.rows.Keys ensures q in most {
      assert q in s.rows || q in Ahead(s);
    }
    SubsetSize(t.rows.Keys, most);
    assert |ScanFrom(s.msgs, s.cursor, limit)| <= |Ahead(s)|;
  }

  lemma TopUpKeeps(s: State, limit: nat)
    requires Inv(s) && limit > 0
    ensures Inv(TopUp(s, limit))
  {
    TopUpExact(s, limit);
    var t := TopUp(s, limit);
    assert RowsSound(t);
    assert ClaimsOrdered(t);
    forall i | 0 <= i < |s.minted| ensures TokenFits(t, s.minted[i]) {
      assert TokenFits(s, s.minted[i]);
    }
  }

  /** A ready row of a stored message whose time has come. */
  predicate Due(s: State, q: int, nowMs: int) {
    q in s.rows && q in s.msgs && s.rows[q].state == Ready && s.rows[q].visibleAt <= nowMs
  }

  /** A claim takes due rows only, and of those the lowest in seq order. Undelivered rows are
      always visible, so a claim never jumps over one. */
  lemma ChosenIsPrefix(s: State, nowMs: int, batch: nat, maxBytes: int, q: int)
    ensures var chosen := Chosen(s, nowMs, batch, maxBytes);
            && (q in Elements(chosen) ==> Due(s, q, nowMs))
            && (Due(s, q, nowMs) ==> q in Elements(chosen) || forall i | 0 <= i < |chosen| :: chosen[i] < q)
  {
    var chosen := Chosen(s, nowMs, batch, maxBytes);
    if q in Elements(chosen) {
      var i :| 0 <= i < |chosen| && chosen[i] == q;
      assert chosen[i] in Claimable(s, nowMs);
    } else if Due(s, q, nowMs) {
      var i := IndexIn(Claimable(s, nowMs), q);
    }
  }

  /** A claim's tokens are new: each is one attempt ahead of every earlier token of its
      seq in this generation. */
  lemma ClaimTokenIsNew(s: State, chosen: seq<int>, i: nat, k: nat)
    requires TokensFenced(s) && Within(chosen, s.rows.Keys) && i < |chosen| && k < |s.minted|
    ensures s.minted[k] != TokensFor(s.rows, chosen, s.generation)[i]
  {
    assert TokenFits(s, s.minted[k]);
  }

  lemma ClaimTokensDistinct(s: State, chosen: seq<int>, nowMs: int)
    requires TokensFenced(s) && Within(chosen, s.rows.Keys) && Increasing(chosen)
    ensures var t := Claim(s, chosen, nowMs);
            forall i, j | 0 <= i < j < |t.minted| :: t.minted[i] != t.minted[j]
  {
    var t := Claim(s, chosen, nowMs);
    forall i, j | 0 <= i < j < |t.minted| ensures t.minted[i] != t.minted[j] {
      if i < |s.minted| <= j {
        ClaimTokenIsNew(s, chosen, j - |s.minted|, i);
      }
    }
  }

  lemma ClaimTokensFit(s: State, chosen: seq<int>, nowMs: int)
    requires RowsSound(s) && TokensFenced(s) && s.generation >= 1 && Within(chosen, s.rows.Keys)
    ensures var t := Claim(s, chosen, nowMs);
            forall i | 0 <= i < |t.minted| :: TokenFits(t, t.minted[i])
  {
    var t := Claim(s, chosen, nowMs);
    forall i | 0 <= i < |t.minted| ensures TokenFits(t, t.minted[i]) {
      if i < |s.minted| {
        assert TokenFits(s, s.minted[i]);
      } else {
        assert chosen[i - |s.minted|] in Elements(chosen);
      }
    }
  }

  lemma ClaimTokensPresent(s: State, chosen: seq<int>, nowMs: int, q: int)
    requires TokensFenced(s) && Within(chosen, s.rows.Keys) && q in s.rows
    ensures var t := Claim(s, chosen, nowMs);
            t.rows[q].attempts > 0 && t.rows[q].generation == t.generation ==>
              Token(q, t.rows[q].attempts, t.generation) in t.minted
  {
    var t := Claim(s, chosen, nowMs);
    if q in Elements(chosen) {
      var i :| 0 <= i < |chosen| && chosen[i] == q;
      assert t.minted[|s.minted| + i] == Token(q, t.rows[q].attempts, s.generation);
    }
  }

  lemma ClaimTokens(s: State, chosen: seq<int>, nowMs: int)
    requires RowsSound(s) && TokensFenced(s) && s.generation >= 1
    requires Within(chosen, s.rows.Keys) && Increasing(chosen)
    ensures TokensFenced(Claim(s, chosen, nowMs))
  {
    ClaimTokensDistinct(s, chosen, nowMs);
    ClaimTokensFit(s, chosen, nowMs);
    forall q | q in s.rows {
      ClaimTokensPresent(s, chosen, nowMs, q);
    }
  }

  lemma ClaimLeases(s: State, chosen: seq<int>, nowMs: int)
    requires Leased(s) && ValidConfig(s.cfg, s.maxAckWait) && Within(chosen, s.rows.Keys)
    ensures Leased(Claim(s, chosen, nowMs))
  {
    assert Millis(s.cfg.ackWait) <= Millis(s.maxAckWait);
  }

  lemma ClaimRows(s: State, chosen: seq<int>, nowMs: int)
    requires RowsSound(s) && Accounted(s) && RemovedOnce(s) && Within(chosen, s.rows.Keys)
    ensures var t := Claim(s, chosen, nowMs); RowsSound(t) && Accounted(t) && RemovedOnce(t)
  {
    var t := Claim(s, chosen, nowMs);
    assert t.rows.Keys == s.rows.Keys;
  }

  lemma ClaimKeeps(s: State, nowMs: int, batch: nat, maxBytes: int)
    requires Inv(s) && nowMs >= 0
    ensures Inv(Claim(s, Chosen(s, nowMs, batch, maxBytes), nowMs))
  {
    var chosen := Chosen(s, nowMs, batch, maxBytes);
    ClaimTokens(s, chosen, nowMs);
    ClaimOrder(s, nowMs, batch, maxBytes);
    ClaimRows(s, chosen, nowMs);
    ClaimLeases(s, chosen, nowMs);
  }

  lemma ClaimOrder(s: State, nowMs: int, batch: nat, maxBytes: int)
    requires RowsSound(s) && ClaimsOrdered(s) && nowMs >= 0
    ensures ClaimsOrdered(Claim(s, Chosen(s, nowMs, batch, maxBytes), nowMs))
  {
    var chosen := Chosen(s, nowMs, batch, maxBytes);
    var t := Claim(s, chosen, nowMs);
    forall q | q in t.rows && t.rows[q].attempts == 0
      ensures forall c | c in t.claimed :: c < q
    {
      assert q !in Elements(chosen) && s.rows[q].attempts == 0;
      assert RowShape(s.rows[q]);
      ChosenIsPrefix(s, nowMs, batch, maxBytes, q);
    }
    forall c | c in t.claimed ensures s.base <= c < s.cursor {
      if c in Elements(chosen) {
        var i :| 0 <= i < |chosen| && chosen[i] == c;
        assert c in s.rows;
      }
    }
  }

  lemma FetchKeeps(s: State, now: int, batch: nat, maxBytes: int, limit: nat)
    requires Inv(s) && now >= 0 && limit > 0
    ensures Inv(FetchStep(s, now, batch, maxBytes, limit))
  {
    var s1 := if |s.rows| >= s.cfg.maxAckPending then s else TopUp(s, limit);
    if |s.rows| < s.cfg.maxAckPending {
      TopUpKeeps(s, limit);
    }
    ClaimKeeps(s1, UnixMilli(now), batch, maxBytes);
  }

  // ---- the remaining commands ---------------------------------------------------

  /** Fewer rows and a lower cursor, as long as it stays above every seq ever claimed
      and at or below every dropped row: nothing is lost and nothing settled comes back. */
  lemma RewindKeeps(s: State, t: State)
    requires Inv(s) && t == s.(rows := t.rows, cursor := t.cursor)
    requires s.base <= t.cursor <= s.cursor
    requires forall q | q in t.rows :: q in s.rows && t.rows[q] == s.rows[q] && q < t.cursor
    requires forall q | q in s.rows && q !in t.rows :: s.rows[q].attempts == 0 && t.cursor <= q
    requires forall c | c in s.claimed :: c < t.cursor
    ensures Inv(t)
  {
    assert forall i | 0 <= i < |s.minted| :: TokenFits(s, s.minted[i]) ==> TokenFits(t, s.minted[i]);
    assert TokensFenced(t);
  }

  lemma UpdateKeeps(s: State, cfg: Config)
    requires Inv(s) && ValidConfig(cfg, s.maxAckWait)
    ensures Inv(UpdateStep(s, cfg))
  {
    var t := s;
    if cfg.maxAckPending < s.cfg.maxAckPending {
      var r := Shrink.ShrinkExact(s.rows, s.cursor, cfg.maxAckPending);
      t := s.(rows := r.rows, cursor := r.cursor);
      forall q | q in r.rows ensures q < r.cursor {
        assert s.rows[q].attempts == 0 ==> RowShape(s.rows[q]);
      }
      RewindKeeps(s, t);
    }
    ConfigKeeps(t, cfg);
  }

  lemma ConfigKeeps(s: State, cfg: Config)
    requires Inv(s) && ValidConfig(cfg, s.maxAckWait)
    ensures Inv(s.(cfg := cfg))
  {
    var t := s.(cfg := cfg);
    assert forall i | 0 <= i < |s.minted| :: TokenFits(s, s.minted[i]) ==> TokenFits(t, s.minted[i]);
  }

  lemma SeekKeeps(s: State, target: int)
    requires Inv(s) && 1 <= target <= s.next
    ensures Inv(SeekStep(s, target))
  {
    var t := SeekStep(s, target);
    assert forall i | 0 <= i < |s.minted| :: TokenFits(s, s.minted[i]) ==> TokenFits(t, s.minted[i]);
  }

  lemma DropMessagesKeeps(s: State, gone: set<int>)
    requires Inv(s)
    ensures Inv(DropMessages(s, gone))
  {
    var t := DropMessages(s, gone);
    assert forall i | 0 <= i < |s.minted| :: TokenFits(s, s.minted[i]) ==> TokenFits(t, s.minted[i]);
    assert RowsSound(t);
  }

  /** The forward cursor clamp passes no live message. */
  lemma ClampKeeps(s: State, c: int)
    requires Inv(s) && c <= s.next && forall m | m in s.msgs :: m >= c
    ensures Inv(ClampCursor(s, c))
  {
    var t := ClampCursor(s, c);
    assert forall i | 0 <= i < |s.minted| :: TokenFits(s, s.minted[i]) ==> TokenFits(t, s.minted[i]);
    assert RowsSound(t);
    assert TokensFenced(t);
  }

  lemma PurgeRangeKeeps(s: State, upTo: int)
    requires Inv(s)
    ensures Inv(PurgeRangeStep(s, upTo))
  {
    var upper := PurgeBound(s, upTo);
    DropMessagesKeeps(s, UpTo(s, upper));
    ClampKeeps(DropMessages(s, UpTo(s, upper)), upper + 1);
  }

  lemma EvictKeeps(s: State, seqs: set<int>)
    requires Inv(s)
    ensures Inv(EvictStep(s, seqs))
    ensures forall m :: m in EvictStep(s, seqs).msgs <==> m in s.msgs && (m in s.rows || m !in seqs)
  {
    var t := EvictStep(s, seqs);
    assert forall i | 0 <= i < |s.minted| :: TokenFits(s, s.minted[i]) ==> TokenFits(t, s.minted[i]);
    assert RowsSound(t);
  }

  lemma PublishKeeps(s: State, m: Msg)
    requires Inv(s)
    ensures Inv(PublishStep(s, m))
  {
    var t := PublishStep(s, m);
    assert forall i | 0 <= i < |s.minted| :: TokenFits(s, s.minted[i]) ==> TokenFits(t, s.minted[i]);
  }

  lemma StepKeeps(s: State, step: Step)
    requires Inv(s) && Enabled(s, step)
    ensures Inv(Next(s, step))
  {
    match step
    case Publish(m) => PublishKeeps(s, m);
    case Fetch(now, batch, maxBytes, limit) => FetchKeeps(s, now, batch, maxBytes, limit);
    case Settle(token, verb, nak, j, at, sink) => SettleKeeps(s, token, verb, nak, j, at, sink);
    case Sweep(q, nowMs, j, sink) => SweepKeeps(s, q, nowMs, j, sink);
    case Retire(q, sink) => RetireKeeps(s, q, sink);
    case Update(cfg) => UpdateKeeps(s, cfg);
    case Seek(target) => SeekKeeps(s, target);
    case PurgeRange(upTo) => PurgeRangeKeeps(s, upTo);
    case PurgeVictims(victims) => DropMessagesKeeps(s, victims);
    case Evict(seqs) => EvictKeeps(s, seqs);
  }

  /** The invariant holds in every state of every run. */
  lemma {:induction false} RunKeeps(trace: seq<State>, steps: seq<Step>, i: nat)
    requires Run(trace, steps) && i < |trace|
    ensures Inv(trace[i])
  {
    if i == 0 {
      InitialHolds(trace[0]);
    } else {
      RunKeeps(trace, steps, i - 1);
      assert Follows(trace, steps, i - 1);
      StepKeeps(trace[i - 1], steps[i - 1]);
    }
  }
}
