/** One bounded pass of the expiry sweeper: which leases it reaches, when it makes progress,
    and how leases stranded by a purge keep it from ever reaching the others. */
module SweepPass {
  import opened Common
  import opened Delivery
  import opened Ordered
  import opened Broker
  import opened Generations

  function Expired(s: State, nowMs: int): set<int> {
    set q | q in s.rows && s.rows[q].state == Inflight && s.rows[q].visibleAt <= nowMs
  }

  /** The scan's order: deadline, then seq. */
  predicate Precedes(s: State, a: int, b: int)
    requires a in s.rows && b in s.rows
  {
    s.rows[a].visibleAt < s.rows[b].visibleAt || (s.rows[a].visibleAt == s.rows[b].visibleAt && a < b)
  }

  /** The expired leases that come before `q`. */
  function Ahead(s: State, nowMs: int, q: int): set<int>
    requires q in s.rows
  {
    set b | b in Expired(s, nowMs) && Precedes(s, b, q)
  }

  /** The first `limit` expired leases, in order. */
  ghost predicate IsScan(s: State, nowMs: int, limit: nat, scan: seq<int>) {
    && Within(scan, Expired(s, nowMs))
    && (forall i, j | 0 <= i < j < |scan| :: Precedes(s, scan[i], scan[j]))
    && |scan| == (if |Expired(s, nowMs)| < limit then |Expired(s, nowMs)| else limit)
    && forall i, b | 0 <= i < |scan| && b in Expired(s, nowMs) && b !in scan :: Precedes(s, scan[i], b)
  }

  /** The pass: each scanned row decided and applied in turn. */
  function SweepAll(s: State, scan: seq<int>, nowMs: int, j: Jitter, sinks: int -> bool): State
    decreases |scan|
  {
    if scan == [] then s
    else SweepAll(SweepStep(s, scan[0], nowMs, j, sinks(scan[0])), scan[1..], nowMs, j, sinks)
  }

  lemma {:induction false} ScanSize(s: State, scan: seq<int>)
    requires forall i | 0 <= i < |scan| :: scan[i] in s.rows
    requires forall i, j | 0 <= i < j < |scan| :: Precedes(s, scan[i], scan[j])
    ensures |Elements(scan)| == |scan|
  {
    if scan != [] {
      var n := |scan| - 1;
      ScanSize(s, scan[..n]);
      assert Elements(scan) == Elements(scan[..n]) + {scan[n]};
    }
  }

  /** A pass reaches a lease exactly when fewer than `limit` expired ones come before it: with
      an earlier deadline, or the same one and a lower seq. */
  lemma ScanReachesIff(s: State, nowMs: int, limit: nat, scan: seq<int>, q: int)
    requires IsScan(s, nowMs, limit, scan) && q in Expired(s, nowMs)
    ensures q in scan <==> |Ahead(s, nowMs, q)| < limit
    ensures forall b :: b in Ahead(s, nowMs, q) <==>
              && b in s.rows && s.rows[b].state == Inflight && s.rows[b].visibleAt <= nowMs
              && (s.rows[b].visibleAt < s.rows[q].visibleAt || (s.rows[b].visibleAt == s.rows[q].visibleAt && b < q))
  {
    ScanSize(s, scan);
    if q in scan {
      var k :| 0 <= k < |scan| && scan[k] == q;
      forall b | b in Ahead(s, nowMs, q) ensures b in Elements(scan) - {q} {
        assert b !in scan ==> Precedes(s, scan[k], b);
      }
      SubsetSize(Ahead(s, nowMs, q), Elements(scan) - {q});
    } else {
      forall b | b in Elements(scan) ensures b in Ahead(s, nowMs, q) {
        var i :| 0 <= i < |scan| && scan[i] == b;
        assert Precedes(s, scan[i], q);
      }
      SubsetSize(Elements(scan), Ahead(s, nowMs, q));
      ScanIsFull(s, nowMs, limit, scan, q);
    }
  }

  lemma ScanIsFull(s: State, nowMs: int, limit: nat, scan: seq<int>, q: int)
    requires IsScan(s, nowMs, limit, scan) && q in Expired(s, nowMs) && q !in scan
    ensures |scan| == limit
  {
    ScanSize(s, scan);
    assert Elements(scan) <= Expired(s, nowMs) - {q};
    SubsetSize(Elements(scan), Expired(s, nowMs) - {q});
  }

  // ---- progress ------------------------------------------------------------------------

  /** An expired lease of this generation that can be released, or that the dead sink takes. */
  predicate Actionable(s: State, q: int, nowMs: int, sink: bool) {
    && q in Expired(s, nowMs) && s.rows[q].generation == s.generation
    && (s.cfg.maxDeliver > 0 && s.rows[q].attempts >= s.cfg.maxDeliver ==> sink)
  }

  lemma SweepActsIff(s: State, q: int, nowMs: int, j: Jitter, sink: bool)
    ensures var t := SweepStep(s, q, nowMs, j, sink);
            && t == (if Actionable(s, q, nowMs, sink) then t else s)
            && t.cfg == s.cfg && t.generation == s.generation
            && (Actionable(s, q, nowMs, sink) ==> q !in Expired(t, nowMs))
            && forall r | r != q :: (r in s.rows <==> r in t.rows) && (r in s.rows ==> t.rows[r] == s.rows[r])
  {
  }

  /** Sweeping one row leaves every other row's fate alone. */
  lemma OthersKept(s: State, q: int, nowMs: int, j: Jitter, sink: bool, r: int, other: bool)
    requires r != q
    ensures Actionable(SweepStep(s, q, nowMs, j, sink), r, nowMs, other) == Actionable(s, r, nowMs, other)
    ensures r in Expired(SweepStep(s, q, nowMs, j, sink), nowMs) <==> r in Expired(s, nowMs)
  {
    SweepActsIff(s, q, nowMs, j, sink);
  }

  ghost predicate Distinct(scan: seq<int>) {
    forall i, j | 0 <= i < j < |scan| :: scan[i] != scan[j]
  }

  /** Of the expired leases a pass scans, exactly the actionable ones are expired no more. */
  lemma {:induction false} SweepAllClears(s: State, scan: seq<int>, nowMs: int, j: Jitter, sinks: int -> bool, q: int)
    requires Distinct(scan)
    ensures q in Expired(SweepAll(s, scan, nowMs, j, sinks), nowMs)
       <==> q in Expired(s, nowMs) && !(q in scan && Actionable(s, q, nowMs, sinks(q)))
    decreases |scan|
  {
    if scan != [] {
      var p := scan[0];
      var t := SweepStep(s, p, nowMs, j, sinks(p));
      SweepAllClears(t, scan[1..], nowMs, j, sinks, q);
      SweepActsIff(s, p, nowMs, j, sinks(p));
      if q == p {
        assert q !in scan[1..];
      } else {
        OthersKept(s, p, nowMs, j, sinks(p), q, sinks(q));
      }
    }
  }

  lemma {:induction false} NothingActs(s: State, scan: seq<int>, nowMs: int, j: Jitter, sinks: int -> bool)
    requires forall i | 0 <= i < |scan| :: !Actionable(s, scan[i], nowMs, sinks(scan[i]))
    ensures SweepAll(s, scan, nowMs, j, sinks) == s
    decreases |scan|
  {
    if scan != [] {
      SweepActsIff(s, scan[0], nowMs, j, sinks(scan[0]));
      assert forall i | 0 <= i < |scan| - 1 :: scan[1..][i] == scan[i + 1];
      NothingActs(s, scan[1..], nowMs, j, sinks);
    }
  }

  /** A pass makes progress exactly when some actionable lease has fewer than `limit`
      expired leases, of any generation, before it. */
  lemma PassProgressesIff(s: State, nowMs: int, limit: nat, scan: seq<int>, j: Jitter, sinks: int -> bool)
    requires IsScan(s, nowMs, limit, scan)
    ensures SweepAll(s, scan, nowMs, j, sinks) != s
       <==> exists q :: Actionable(s, q, nowMs, sinks(q)) && |Ahead(s, nowMs, q)| < limit
  {
    if q :| Actionable(s, q, nowMs, sinks(q)) && |Ahead(s, nowMs, q)| < limit {
      ScanReachesIff(s, nowMs, limit, scan, q);
      SweepAllClears(s, scan, nowMs, j, sinks, q);
    } else {
      forall i | 0 <= i < |scan| ensures !Actionable(s, scan[i], nowMs, sinks(scan[i])) {
        ScanReachesIff(s, nowMs, limit, scan, scan[i]);
      }
      NothingActs(s, scan, nowMs, j, sinks);
    }
  }

  // ---- starvation ----------------------------------------------------------------------

  /** Once `limit` leases are stranded, no pass in any later state of the run reaches a
      lease with a later deadline than theirs, until one of them is purged or the operator
      seeks. */
  lemma StrandedStarve(trace: seq<State>, steps: seq<Step>, i: nat, k: nat, stuck: set<int>, limit: nat,
                       nowMs: int, scan: seq<int>, q: int)
    requires Run(trace, steps) && i <= k < |trace| && |stuck| >= limit
    requires forall z, n | z in stuck && i <= n < k :: !Frees(trace[n], steps[n], z)
    requires IsScan(trace[k], nowMs, limit, scan) && q in Expired(trace[k], nowMs)
    requires forall z | z in stuck ::
               Stranded(trace[i], z) && trace[i].rows[z].visibleAt < trace[k].rows[q].visibleAt
    ensures q !in scan
  {
    var s := trace[k];
    forall z | z in stuck ensures z in Ahead(s, nowMs, q) {
      StrandedForever(trace, steps, i, k, z);
    }
    SubsetSize(stuck, Ahead(s, nowMs, q));
    ScanReachesIff(s, nowMs, limit, scan, q);
  }
}
