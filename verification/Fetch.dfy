/** The fetch command's loops, proved against the steps of `Broker`. */
module FetchCommand {
  import opened Delivery
  import opened Ordered
  import opened Broker
  import opened BrokerInvariant

  method SelectMessages(s: State, limit: nat) returns (scan: seq<int>)
    ensures scan == ScanFrom(s.msgs, s.cursor, limit)
  {
    var all := SelectAscending(set m | m in s.msgs && m >= s.cursor);
    scan := if |all| <= limit then all else all[..limit];
  }

  /** Top-up: one pass over the scan, admitting matches until the bound declines one. */
  method RunTopUp(s: State, limit: nat) returns (t: State)
    ensures t == TopUp(s, limit)
  {
    var scan := SelectMessages(s, limit);
    var rows, pending := s.rows, |s.rows|;
    var declined, declinedSeq := false, 0;
    var scanned, lastExamined := 0, 0;
    ghost var bound, whole := s.cfg.maxAckPending, Admit(scan, 0, s.msgs, s.rows, s.cfg.maxAckPending, s.generation);
    while scanned < |scan| && !declined
      invariant 0 <= scanned <= |scan| && pending == |rows|
      invariant scanned > 0 ==> lastExamined == scan[scanned - 1]
      invariant scanned == 0 ==> lastExamined == 0 && !declined
      invariant !declined ==> whole == Admit(scan, scanned, s.msgs, rows, bound, s.generation)
      invariant declined ==> whole == Admission(rows, scanned - 1) && declinedSeq == scan[scanned - 1]
      decreases |scan| - scanned, !declined
    {
      var seqNo := scan[scanned];
      scanned := scanned + 1;
      lastExamined := seqNo;
      if s.msgs[seqNo].wanted {
        if pending >= s.cfg.maxAckPending {
          declined := true;
          declinedSeq := seqNo;
        } else if seqNo !in rows {
          rows := rows[seqNo := FreshRow(s.generation)];
          pending := pending + 1;
        }
      }
    }
    var cursor := if declined then declinedSeq else if scanned == limit then lastExamined + 1 else s.next;
    if cursor < s.cursor {
      cursor := s.cursor;
    }
    t := s.(rows := rows, cursor := cursor);
  }

  /** The byte budget: stop before exceeding it, but always take the first candidate. */
  method ChooseWithin(cands: seq<int>, sizes: seq<nat>, maxBytes: int) returns (chosen: seq<int>)
    requires |cands| == |sizes|
    ensures chosen == cands[..Fit(sizes, 0, 0, maxBytes)]
  {
    chosen := [];
    var used := 0;
    for i := 0 to |cands|
      invariant chosen == cands[..i]
      invariant Fit(sizes, 0, 0, maxBytes) == Fit(sizes, i, used, maxBytes)
    {
      if |chosen| > 0 && used + sizes[i] > maxBytes {
        return;
      }
      chosen := chosen + [cands[i]];
      used := used + sizes[i];
    }
  }

  /** A prefix cut by the byte budget: within the budget unless it is a single message,
      and no further candidate would have fit. */
  lemma {:induction false} FitIsMaximal(sizes: seq<nat>, at: nat, used: int, maxBytes: int)
    requires at <= |sizes| && (at <= 1 || used <= maxBytes)
    ensures var k := Fit(sizes, at, used, maxBytes);
            && (k <= 1 || used + Total(sizes, at, k) <= maxBytes)
            && (k < |sizes| ==> k > 0 && used + Total(sizes, at, k) + sizes[k] > maxBytes)
    decreases |sizes| - at
  {
    if at < |sizes| && !(at > 0 && used + sizes[at] > maxBytes) {
      FitIsMaximal(sizes, at + 1, used + sizes[at], maxBytes);
    }
  }

  /** The sum of `sizes[lo..hi]`. */
  function Total(sizes: seq<nat>, lo: nat, hi: nat): nat
    requires lo <= hi <= |sizes|
    decreases hi - lo
  {
    if lo == hi then 0 else sizes[lo] + Total(sizes, lo + 1, hi)
  }

  method RunClaim(s: State, nowMs: int, batch: nat, maxBytes: int) returns (t: State, chosen: seq<int>)
    ensures chosen == Chosen(s, nowMs, batch, maxBytes)
    ensures t == Claim(s, chosen, nowMs)
    ensures forall i | 0 <= i < |chosen| ::
              Due(s, chosen[i], nowMs) && t.rows[chosen[i]].state == Inflight
              && t.rows[chosen[i]].visibleAt == nowMs + Millis(s.cfg.ackWait)
  {
    var all := SelectAscending(Claimable(s, nowMs));
    var cands := if |all| <= batch then all else all[..batch];
    assert cands == Candidates(s, nowMs, batch);
    chosen := ChooseWithin(cands, Sizes(s, cands), maxBytes);
    t := Claim(s, chosen, nowMs);
    forall i | 0 <= i < |chosen| ensures Due(s, chosen[i], nowMs) && chosen[i] in Elements(chosen) {
      ChosenIsPrefix(s, nowMs, batch, maxBytes, chosen[i]);
    }
  }

  /** The whole command. */
  method RunFetch(s: State, now: int, batch: nat, maxBytes: int, limit: nat) returns (t: State, chosen: seq<int>)
    ensures t == FetchStep(s, now, batch, maxBytes, limit)
    ensures t.minted == s.minted + t.minted[|s.minted|..] && |t.minted| == |s.minted| + |chosen|
    ensures forall i | 0 <= i < |chosen| ::
              t.minted[|s.minted| + i].seqNo == chosen[i] && t.rows[chosen[i]].state == Inflight
    ensures forall i | 0 <= i < |chosen| && chosen[i] in s.rows :: Due(s, chosen[i], UnixMilli(now))
  {
    TopUpKeepsRows(s, limit);
    var s1 := s;
    if |s.rows| < s.cfg.maxAckPending {
      s1 := RunTopUp(s, limit);
    }
    t, chosen := RunClaim(s1, UnixMilli(now), batch, maxBytes);
    assert forall i | 0 <= i < |chosen| :: chosen[i] in Elements(chosen);
  }
}
