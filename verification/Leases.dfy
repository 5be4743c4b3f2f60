/** Leases and retries of a single claim: how far extends can push a deadline, and what
    replayed naks do. */
module Leases {
  import opened Common
  import opened Delivery

  /** A row after extend requests and how many of them were granted. */
  datatype Extended = Extended(row: Row, granted: nat)

  function ExtendOnce(e: Extended, ackWait: int, maxAckWait: int, now: int): Extended {
    var req := Request(ExtendVerb, Token(0, e.row.attempts, 0), 0, 0, Config(ackWait, 0, [], 1), maxAckWait,
                       Some(e.row), Scheduled);
    match PlanSettle(req, d => d, now)
    case Plan(OK, Prolong(at), _, _) => Extended(e.row.(visibleAt := at), e.granted + 1)
    case _ => e
  }

  /** Any sequence of extend requests. */
  function Extends(row: Row, ackWait: int, maxAckWait: int, nows: seq<int>): Extended {
    if nows == [] then Extended(row, 0)
    else ExtendOnce(Extends(row, ackWait, maxAckWait, nows[..|nows| - 1]), ackWait, maxAckWait, nows[|nows| - 1])
  }

  /** A row as the claim leaves it. */
  predicate JustClaimed(row: Row, ackWait: int) {
    row.state == Inflight && row.visibleAt == row.deliveredAt + Millis(ackWait)
  }

  lemma {:induction false} ExtendsAdvance(row: Row, ackWait: int, maxAckWait: int, nows: seq<int>)
    requires JustClaimed(row, ackWait) && 0 < Millis(ackWait) <= Millis(maxAckWait)
    ensures var e := Extends(row, ackWait, maxAckWait, nows);
            && e.row == row.(visibleAt := e.row.visibleAt)
            && row.deliveredAt + (e.granted + 1) * Millis(ackWait) <= e.row.visibleAt <= row.deliveredAt + Millis(maxAckWait)
  {
    if nows != [] {
      ExtendsAdvance(row, ackWait, maxAckWait, nows[..|nows| - 1]);
      var n := Extends(row, ackWait, maxAckWait, nows[..|nows| - 1]).granted;
      assert (n + 2) * Millis(ackWait) == (n + 1) * Millis(ackWait) + Millis(ackWait);
    }
  }

  lemma MulMono(x: int, y: int, a: int)
    requires x <= y && a >= 0
    ensures x * a <= y * a
  {
    assert y * a == x * a + (y - x) * a;
  }

  lemma DivBound(k: int, a: int, m: int)
    requires a > 0 && k * a <= m
    ensures k <= m / a
  {
    var q := m / a;
    assert m == q * a + m % a && m % a < a;
    if k > q {
      MulMono(q + 1, k, a);
      assert false;
    }
  }

  /** However a worker extends, the lease stays within max_ack_wait of the claim and at
      most floor(max_ack_wait / ack_wait) - 1 extends are granted. */
  lemma ExtendsBounded(row: Row, ackWait: int, maxAckWait: int, nows: seq<int>)
    requires JustClaimed(row, ackWait) && 0 < Millis(ackWait) <= Millis(maxAckWait)
    ensures var e := Extends(row, ackWait, maxAckWait, nows);
            && e.row.visibleAt - e.row.deliveredAt <= Millis(maxAckWait)
            && e.granted <= Millis(maxAckWait) / Millis(ackWait) - 1
  {
    ExtendsAdvance(row, ackWait, maxAckWait, nows);
    DivBound(Extends(row, ackWait, maxAckWait, nows).granted + 1, Millis(ackWait), Millis(maxAckWait));
  }

  /** An extend made before the deadline is granted exactly when one more ack_wait fits. */
  lemma PromptExtend(e: Extended, ackWait: int, maxAckWait: int, now: int)
    requires e.row.state == Inflight && UnixMilli(now) <= e.row.visibleAt
    ensures ExtendOnce(e, ackWait, maxAckWait, now) ==
            if e.row.visibleAt + Millis(ackWait) <= e.row.deliveredAt + Millis(maxAckWait)
            then Extended(e.row.(visibleAt := e.row.visibleAt + Millis(ackWait)), e.granted + 1) else e
  {
  }

  /** The bound is attained: prompt requests are all granted while they fit. */
  lemma {:induction false} PromptExtendsGranted(row: Row, ackWait: int, maxAckWait: int, nows: seq<int>)
    requires JustClaimed(row, ackWait) && 0 < Millis(ackWait)
    requires forall i | 0 <= i < |nows| :: UnixMilli(nows[i]) <= row.visibleAt
    requires (|nows| + 1) * Millis(ackWait) <= Millis(maxAckWait)
    ensures Extends(row, ackWait, maxAckWait, nows)
            == Extended(row.(visibleAt := row.deliveredAt + (|nows| + 1) * Millis(ackWait)), |nows|)
  {
    if nows != [] {
      var k, a := |nows| - 1, Millis(ackWait);
      MulMono(1, k + 1, a);
      assert (k + 2) * a == (k + 1) * a + a;
      PromptExtendsGranted(row, ackWait, maxAckWait, nows[..k]);
      PromptExtend(Extends(row, ackWait, maxAckWait, nows[..k]), ackWait, maxAckWait, nows[k]);
    }
  }

  datatype NakCall = NakCall(nak: NakDelay, now: int)

  /** The row after one nak by the token of its current attempt. */
  function NakOnce(row: Row, cfg: Config, call: NakCall, j: Jitter): Row {
    var req := Request(NakVerb, Token(0, row.attempts, 0), 0, 0, cfg, 0, Some(row), call.nak);
    match PlanSettle(req, j, call.now)
    case Plan(OK, Release(at), _, _) => row.(state := Ready, visibleAt := at)
    case _ => row
  }

  function Naks(row: Row, cfg: Config, calls: seq<NakCall>, j: Jitter): Row {
    if calls == [] then row
    else NakOnce(Naks(row, cfg, calls[..|calls| - 1], j), cfg, calls[|calls| - 1], j)
  }

  /** Replaying naks on a released row, at any times and with any delays, only ever pulls
      it in: it stays READY and its visibility never moves later. */
  lemma {:induction false} NakReplayNeverDefers(row: Row, cfg: Config, calls: seq<NakCall>, j: Jitter)
    requires row.state == Ready
    ensures var r := Naks(row, cfg, calls, j);
            r == row.(visibleAt := r.visibleAt) && r.visibleAt <= row.visibleAt
  {
    if calls != [] {
      NakReplayNeverDefers(row, cfg, calls[..|calls| - 1], j);
    }
  }

  /** A first nak with an explicit delay is honoured to the millisecond, unjittered, and
      one out of range is refused without touching the row. */
  lemma ExplicitNakIsVerbatim(row: Row, cfg: Config, d: int, now: int, j: Jitter)
    requires row.state == Inflight && (cfg.maxDeliver == 0 || row.attempts < cfg.maxDeliver)
    ensures NakOnce(row, cfg, NakCall(Explicit(d), now), j) ==
            if 0 <= d <= MAX_NAK_DELAY then row.(state := Ready, visibleAt := UnixMilli(now + d)) else row
  {
  }
}
