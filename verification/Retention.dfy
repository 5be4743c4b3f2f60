/** The retention planner: which messages one bounded sweep may evict. */
module Retention {

  /** One message as the planner sees it; `pinned` is a live delivery row. */
  datatype Candidate = Candidate(seqNo: int, size: nat, publishedAt: int, pinned: bool)

  /** Limits (0 = unlimited) and the stream's counters. */
  datatype View = View(maxMsgs: int, maxBytes: int, maxAgeMs: int, msgs: int, bytes: int, nowMs: int)

  datatype EvictionPlan = EvictionPlan(
    seqs: seq<int>, freed: int, highestDeleted: int,
    blockedCount: int, blockedBytes: int, highestBlocked: int, more: bool)

  predicate StillViolating(msgs: int, bytes: int, v: View) {
    (v.maxMsgs > 0 && msgs > v.maxMsgs) || (v.maxBytes > 0 && bytes > v.maxBytes)
  }

  predicate ViolatesAfter(n: int, freed: int, v: View) {
    StillViolating(v.msgs - n, v.bytes - freed, v)
  }

  predicate Violates(v: View) {
    StillViolating(v.msgs, v.bytes, v)
  }

  predicate Aged(c: Candidate, v: View) {
    v.maxAgeMs > 0 && c.publishedAt < v.nowMs - v.maxAgeMs
  }

  // ---- the policy, recomputed afresh at every message ----------------------------

  /** The counters once one message is gone. */
  function Without(v: View, c: Candidate): View {
    v.(msgs := v.msgs - 1, bytes := v.bytes - c.size)
  }

  /** Skip what no limit wants and what is pinned; stop when count or byte pressure
      would take the last message; otherwise evict. */
  datatype Choice = Skip | Stop | Evict

  function Choose(c: Candidate, v: View): Choice {
    if !Aged(c, v) && !Violates(v) then Skip
    else if c.pinned then Skip
    else if !Aged(c, v) && v.msgs <= 1 then Stop
    else Evict
  }

  /** The evicted candidates, oldest first. */
  function Picks(cands: seq<Candidate>, v: View, batch: nat): seq<Candidate> {
    if cands == [] || batch == 0 then []
    else
      match Choose(cands[0], v)
      case Skip => Picks(cands[1..], v, batch)
      case Stop => []
      case Evict => [cands[0]] + Picks(cands[1..], Without(v, cands[0]), batch - 1)
  }

  /** The candidates left for the next sweep. */
  function Rest(cands: seq<Candidate>, v: View, batch: nat): seq<Candidate> {
    if cands == [] || batch == 0 then cands
    else
      match Choose(cands[0], v)
      case Skip => [cands[0]] + Rest(cands[1..], v, batch)
      case Stop => cands
      case Evict => Rest(cands[1..], Without(v, cands[0]), batch - 1)
  }

  /** Pinned candidates that a limit wanted and the walk passed. */
  function Blocked(cands: seq<Candidate>, v: View, batch: nat): seq<Candidate> {
    if cands == [] || batch == 0 then []
    else
      match Choose(cands[0], v)
      case Skip =>
        var tail := Blocked(cands[1..], v, batch);
        if cands[0].pinned && (Aged(cands[0], v) || Violates(v)) then [cands[0]] + tail else tail
      case Stop => []
      case Evict => Blocked(cands[1..], Without(v, cands[0]), batch - 1)
  }

  function Bytes(cs: seq<Candidate>): nat {
    if cs == [] then 0 else cs[0].size + Bytes(cs[1..])
  }

  function Seqs(cs: seq<Candidate>): seq<int> {
    seq(|cs|, i requires 0 <= i < |cs| => cs[i].seqNo)
  }

  function Highest(cs: seq<Candidate>): int {
    if cs == [] then 0
    else
      var h := Highest(cs[..|cs| - 1]);
      var last := cs[|cs| - 1].seqNo;
      if last > h then last else h
  }

  /** The counters once all of `picks` are gone. */
  function After(v: View, picks: seq<Candidate>): View {
    v.(msgs := v.msgs - |picks|, bytes := v.bytes - Bytes(picks))
  }

  lemma {:induction false} BytesSnoc(cs: seq<Candidate>, c: Candidate)
    ensures Bytes(cs + [c]) == Bytes(cs) + c.size
  {
    if cs == [] {
      assert cs + [c] == [c];
    } else {
      BytesSnoc(cs[1..], c);
      assert (cs + [c])[1..] == cs[1..] + [c];
    }
  }

  // ---- the single-pass loop -----------------------------------------------------

  function Positive(x: int): nat {
    if x > 0 then x else 0
  }

  /** By how much a value exceeds an active limit. */
  function Over(value: int, limit: int): nat {
    if limit > 0 then Positive(value - limit) else 0
  }

  /** What the running counters stand for. */
  ghost predicate CountersAgree(excess: int, need: int, now: View) {
    excess == Over(now.msgs, now.maxMsgs) && need == Over(now.bytes, now.maxBytes)
  }

  lemma CountersStep(excess: int, need: int, now: View, c: Candidate)
    requires CountersAgree(excess, need, now)
    ensures CountersAgree(if excess > 0 then excess - 1 else excess, Positive(need - c.size), Without(now, c))
  {
  }

  /** `count`, `bytes` and `high` sum up the candidates `cs`. */
  ghost predicate Tally(cs: seq<Candidate>, count: int, bytes: int, high: int) {
    count == |cs| && bytes == Bytes(cs) && high == Highest(cs)
  }

  lemma TallySnoc(cs: seq<Candidate>, c: Candidate, count: int, bytes: int, high: int)
    requires Tally(cs, count, bytes, high)
    ensures Tally(cs + [c], count + 1, bytes + c.size, if c.seqNo > high then c.seqNo else high)
    ensures Seqs(cs + [c]) == Seqs(cs) + [c.seqNo]
  {
    BytesSnoc(cs, c);
    assert (cs + [c])[..|cs|] == cs;
  }

  /** After `i` candidates the walk evicted `picks` and passed `blocked`, and what it
      will still do is the policy's answer for the remaining candidates. */
  ghost predicate Reached(cands: seq<Candidate>, v: View, batch: nat, i: nat, picks: seq<Candidate>, blocked: seq<Candidate>)
  {
    && i <= |cands| && |picks| <= batch
    && Picks(cands, v, batch) == picks + Picks(cands[i..], After(v, picks), batch - |picks|)
    && Blocked(cands, v, batch) == blocked + Blocked(cands[i..], After(v, picks), batch - |picks|)
  }

  lemma ReachedStart(cands: seq<Candidate>, v: View, batch: nat)
    ensures Reached(cands, v, batch, 0, [], [])
  {
    assert cands[0..] == cands;
    assert After(v, []) == v;
  }

  lemma ReachedSkip(cands: seq<Candidate>, v: View, batch: nat, i: nat, picks: seq<Candidate>, blocked: seq<Candidate>)
    requires Reached(cands, v, batch, i, picks, blocked) && i < |cands| && |picks| < batch
    requires Choose(cands[i], After(v, picks)) == Skip
    ensures var now := After(v, picks);
            var wanted := cands[i].pinned && (Aged(cands[i], now) || Violates(now));
            Reached(cands, v, batch, i + 1, picks, if wanted then blocked + [cands[i]] else blocked)
  {
    assert cands[i..][0] == cands[i] && cands[i..][1..] == cands[i + 1..];
    var rest := Blocked(cands[i + 1..], After(v, picks), batch - |picks|);
    assert blocked + ([cands[i]] + rest) == (blocked + [cands[i]]) + rest;
  }

  lemma ReachedEvict(cands: seq<Candidate>, v: View, batch: nat, i: nat, picks: seq<Candidate>, blocked: seq<Candidate>)
    requires Reached(cands, v, batch, i, picks, blocked) && i < |cands| && |picks| < batch
    requires Choose(cands[i], After(v, picks)) == Evict
    ensures Reached(cands, v, batch, i + 1, picks + [cands[i]], blocked)
    ensures After(v, picks + [cands[i]]) == Without(After(v, picks), cands[i])
  {
    var c := cands[i];
    assert cands[i..][0] == c && cands[i..][1..] == cands[i + 1..];
    BytesSnoc(picks, c);
    assert After(v, picks + [c]) == Without(After(v, picks), c);
    var rest := Picks(cands[i + 1..], Without(After(v, picks), c), batch - |picks| - 1);
    assert picks + ([c] + rest) == (picks + [c]) + rest;
  }

  lemma ReachedEnd(cands: seq<Candidate>, v: View, batch: nat, i: nat, picks: seq<Candidate>, blocked: seq<Candidate>)
    requires Reached(cands, v, batch, i, picks, blocked)
    requires i == |cands| || |picks| == batch || Choose(cands[i], After(v, picks)) == Stop
    ensures Picks(cands, v, batch) == picks && Blocked(cands, v, batch) == blocked
  {
    if i < |cands| {
      assert cands[i..][0] == cands[i];
    }
  }

  /** The report made of the policy's answer. */
  ghost function Report(picks: seq<Candidate>, blocked: seq<Candidate>, v: View, batch: int): EvictionPlan {
    EvictionPlan(Seqs(picks), Bytes(picks), Highest(picks),
                 |blocked|, Bytes(blocked), Highest(blocked),
                 |picks| == batch && Violates(After(v, picks)))
  }

  lemma ReportIs(picks: seq<Candidate>, blocked: seq<Candidate>, v: View, batch: int,
                 freed: int, high: int, count: int, bytes: int, highBlocked: int)
    requires Tally(picks, |picks|, freed, high) && Tally(blocked, count, bytes, highBlocked)
    ensures Report(picks, blocked, v, batch)
         == EvictionPlan(Seqs(picks), freed, high, count, bytes, highBlocked, |picks| == batch && ViolatesAfter(|picks|, freed, v))
  {
  }

  /** The planner as written: running `excess` and `need` instead of recomputation. */
  method PlanEviction(cands: seq<Candidate>, v: View, batch: int) returns (plan: EvictionPlan)
    ensures batch <= 0 ==> plan == EvictionPlan([], 0, 0, 0, 0, 0, false)
    ensures batch > 0 ==> plan == Report(Picks(cands, v, batch), Blocked(cands, v, batch), v, batch)
  {
    if batch <= 0 {
      return EvictionPlan([], 0, 0, 0, 0, 0, false);
    }
    var cutoff := 0;
    var ageActive := v.maxAgeMs > 0;
    if ageActive {
      cutoff := v.nowMs - v.maxAgeMs;
    }
    var excess := Over(v.msgs, v.maxMsgs);
    var need := Over(v.bytes, v.maxBytes);
    var seqs: seq<int> := [];
    var freed, highestDeleted := 0, 0;
    var blockedCount, blockedBytes, highestBlocked := 0, 0, 0;
    ghost var picks: seq<Candidate>, blocked: seq<Candidate> := [], [];
    ReachedStart(cands, v, batch);
    var i := 0;
    while i < |cands|
      invariant Reached(cands, v, batch, i, picks, blocked) && |picks| < batch
      invariant seqs == Seqs(picks) && Tally(picks, |seqs|, freed, highestDeleted)
      invariant Tally(blocked, blockedCount, blockedBytes, highestBlocked)
      invariant CountersAgree(excess, need, After(v, picks))
    {
      var c := cands[i];
      var wantAge := ageActive && c.publishedAt < cutoff;
      var wantCount := excess > 0;
      var wantBytes := need > 0;
      assert wantAge == Aged(c, After(v, picks)) && (wantCount || wantBytes) == Violates(After(v, picks));
      if !wantAge && !wantCount && !wantBytes {
        ReachedSkip(cands, v, batch, i, picks, blocked);
        i := i + 1;
        continue;
      }
      if c.pinned {
        ReachedSkip(cands, v, batch, i, picks, blocked);
        TallySnoc(blocked, c, blockedCount, blockedBytes, highestBlocked);
        blocked := blocked + [c];
        blockedCount := blockedCount + 1;
        blockedBytes := blockedBytes + c.size;
        highestBlocked := if c.seqNo > highestBlocked then c.seqNo else highestBlocked;
        i := i + 1;
        continue;
      }
      if !wantAge && v.msgs - |seqs| <= 1 {
        break;
      }
      ReachedEvict(cands, v, batch, i, picks, blocked);
      TallySnoc(picks, c, |seqs|, freed, highestDeleted);
      CountersStep(excess, need, After(v, picks), c);
      picks := picks + [c];
      seqs := seqs + [c.seqNo];
      freed := freed + c.size;
      highestDeleted := if c.seqNo > highestDeleted then c.seqNo else highestDeleted;
      excess := if excess > 0 then excess - 1 else excess;
      need := Positive(need - c.size);
      i := i + 1;
      if |seqs| == batch {
        break;
      }
    }
    ReachedEnd(cands, v, batch, i, picks, blocked);
    ReportIs(picks, blocked, v, batch, freed, highestDeleted, blockedCount, blockedBytes, highestBlocked);
    plan := EvictionPlan(seqs, freed, highestDeleted, blockedCount, blockedBytes, highestBlocked,
                         |seqs| == batch && ViolatesAfter(|seqs|, freed, v));
  }

  // ---- soundness and completeness -----------------------------------------------

  /** Every pick is an unpinned candidate, taken because it had aged or because a limit
      was still violated with more than one message left; and nothing else is lost. */
  lemma {:induction false} PicksSound(cands: seq<Candidate>, v: View, batch: nat, k: nat)
    requires k < |Picks(cands, v, batch)|
    ensures var picks := Picks(cands, v, batch);
            && |picks| <= batch && picks[k] in cands && !picks[k].pinned
            && (Aged(picks[k], v) || (Violates(After(v, picks[..k])) && v.msgs - k > 1))
    decreases |cands|
  {
    var picks := Picks(cands, v, batch);
    match Choose(cands[0], v)
    case Skip => PicksSound(cands[1..], v, batch, k);
    case Evict =>
      var w := Without(v, cands[0]);
      var tail := Picks(cands[1..], w, batch - 1);
      assert picks == [cands[0]] + tail;
      if |tail| > 0 {
        PicksSound(cands[1..], w, batch - 1, if k > 0 then k - 1 else 0);
      }
      if k > 0 {
        assert picks[..k][1..] == tail[..k - 1];
        assert After(v, picks[..k]) == After(w, tail[..k - 1]);
      } else {
        assert picks[..0] == [] && After(v, []) == v;
      }
  }

  /** Picks and leftovers split the candidates. */
  lemma {:induction false} PicksAndRest(cands: seq<Candidate>, v: View, batch: nat)
    ensures multiset(cands) == multiset(Picks(cands, v, batch)) + multiset(Rest(cands, v, batch))
    decreases |cands|
  {
    if cands != [] && batch > 0 {
      var c, tail := cands[0], cands[1..];
      assert cands == [c] + tail;
      var evict := Choose(c, v) == Evict;
      var w, b := if evict then Without(v, c) else v, if evict then batch - 1 else batch;
      PicksAndRest(tail, w, b);
      SplitCons(c, tail, Picks(tail, w, b), Rest(tail, w, b));
    }
  }

  lemma SplitCons(c: Candidate, cs: seq<Candidate>, ps: seq<Candidate>, rs: seq<Candidate>)
    requires multiset(cs) == multiset(ps) + multiset(rs)
    ensures multiset([c] + cs) == multiset([c] + ps) + multiset(rs)
    ensures multiset([c] + cs) == multiset(ps) + multiset([c] + rs)
  {
    MultisetCons(c, cs);
    MultisetCons(c, ps);
    MultisetCons(c, rs);
  }

  lemma MultisetCons(c: Candidate, cs: seq<Candidate>)
    ensures multiset([c] + cs) == multiset{c} + multiset(cs)
  {
  }

  lemma {:induction false} PicksSizes(cands: seq<Candidate>, v: View, batch: nat)
    ensures |cands| == |Picks(cands, v, batch)| + |Rest(cands, v, batch)| && |Picks(cands, v, batch)| <= batch
    decreases |cands|
  {
    if cands != [] && batch > 0 {
      match Choose(cands[0], v)
      case Skip => PicksSizes(cands[1..], v, batch);
      case Stop =>
      case Evict => PicksSizes(cands[1..], Without(v, cands[0]), batch - 1);
    }
  }

  /** What is reported as blocked is pinned, and a limit wanted it when the sweep began. */
  lemma {:induction false} BlockedSound(cands: seq<Candidate>, v: View, batch: nat, k: nat)
    requires k < |Blocked(cands, v, batch)|
    ensures var b := Blocked(cands, v, batch)[k];
            b in cands && b.pinned && (Aged(b, v) || Violates(v))
    decreases |cands|
  {
    var c, tail := cands[0], cands[1..];
    match Choose(c, v)
    case Skip =>
      var wanted := c.pinned && (Aged(c, v) || Violates(v));
      if !wanted || k > 0 {
        BlockedSound(tail, v, batch, if wanted then k - 1 else k);
      }
    case Evict => BlockedSound(tail, Without(v, c), batch - 1, k);
  }

  /** And nothing pinned and aged is passed over unreported by a sweep that saw it all. */
  lemma {:induction false} BlockedComplete(cands: seq<Candidate>, v: View, batch: nat, i: nat)
    requires i < |cands| && cands[i].pinned && Aged(cands[i], v)
    requires |Picks(cands, v, batch)| < batch && v.msgs >= |cands|
    ensures cands[i] in Blocked(cands, v, batch)
    decreases |cands|
  {
    if i > 0 {
      match Choose(cands[0], v)
      case Skip => BlockedComplete(cands[1..], v, batch, i - 1);
      case Evict => BlockedComplete(cands[1..], Without(v, cands[0]), batch - 1, i - 1);
      case Stop =>
    }
  }

  ghost predicate Ascending(cands: seq<Candidate>) {
    forall i, j | 0 <= i < j < |cands| :: cands[i].seqNo < cands[j].seqNo
  }

  /** Picks come out in the candidates' order. */
  lemma {:induction false} PicksAscend(cands: seq<Candidate>, v: View, batch: nat)
    requires Ascending(cands)
    ensures Ascending(Picks(cands, v, batch))
    ensures cands != [] ==> forall k | 0 <= k < |Picks(cands, v, batch)| :: cands[0].seqNo <= Picks(cands, v, batch)[k].seqNo
  {
    if cands != [] && batch > 0 {
      match Choose(cands[0], v)
      case Skip => PicksAscend(cands[1..], v, batch);
      case Stop =>
      case Evict => PicksAscend(cands[1..], Without(v, cands[0]), batch - 1);
    }
  }

  ghost predicate AllPinned(cs: seq<Candidate>) {
    forall i | 0 <= i < |cs| :: cs[i].pinned
  }

  ghost predicate NoneAged(cs: seq<Candidate>, v: View) {
    forall i | 0 <= i < |cs| && !cs[i].pinned :: !Aged(cs[i], v)
  }

  /** A single message remains; or no unpinned aged candidate does, and the limits hold
      unless everything left is pinned. */
  ghost predicate Settled(rest: seq<Candidate>, now: View) {
    now.msgs <= 1 || (NoneAged(rest, now) && (!Violates(now) || AllPinned(rest)))
  }

  lemma SettledCons(c: Candidate, rest: seq<Candidate>, now: View)
    requires Settled(rest, now)
    requires c.pinned || (!Aged(c, now) && !Violates(now))
    ensures Settled([c] + rest, now)
  {
  }

  /** A sweep that stops short of its batch leaves a settled stream. */
  lemma {:induction false} ShortSweepIsDone(cands: seq<Candidate>, v: View, batch: nat)
    requires |Picks(cands, v, batch)| < batch
    ensures Settled(Rest(cands, v, batch), After(v, Picks(cands, v, batch)))
    decreases |cands|
  {
    if cands != [] {
      var c, tail := cands[0], cands[1..];
      match Choose(c, v)
      case Skip =>
        ShortSweepIsDone(tail, v, batch);
        SettledCons(c, Rest(tail, v, batch), After(v, Picks(tail, v, batch)));
      case Stop => assert After(v, []) == v;
      case Evict =>
        var w := Without(v, c);
        ShortSweepIsDone(tail, w, batch - 1);
        AfterCons(v, c, Picks(tail, w, batch - 1));
    }
  }

  lemma AfterCons(v: View, c: Candidate, picks: seq<Candidate>)
    ensures After(v, [c] + picks) == After(Without(v, c), picks)
  {
    assert ([c] + picks)[1..] == picks;
  }

  /** Count and byte pressure alone never empty a stream. */
  lemma {:induction false} KeepsOne(cands: seq<Candidate>, v: View, batch: nat)
    requires v.maxAgeMs <= 0 && v.msgs >= 1
    ensures After(v, Picks(cands, v, batch)).msgs >= 1
    decreases |cands|
  {
    if cands != [] && batch > 0 {
      match Choose(cands[0], v)
      case Skip => KeepsOne(cands[1..], v, batch);
      case Stop =>
      case Evict => KeepsOne(cands[1..], Without(v, cands[0]), batch - 1);
    }
  }

  /** Without an age limit the picks are simply the oldest unpinned candidates. */
  lemma {:induction false} OldestFirst(cands: seq<Candidate>, v: View, batch: nat)
    requires v.maxAgeMs <= 0
    ensures var picks := Picks(cands, v, batch);
            |picks| <= |Unpinned(cands)| && picks == Unpinned(cands)[..|picks|]
    decreases |cands|
  {
    if cands != [] && batch > 0 {
      match Choose(cands[0], v)
      case Skip =>
        OldestFirst(cands[1..], v, batch);
        if !cands[0].pinned {
          NothingWanted(cands[1..], v, batch);
        }
      case Stop =>
      case Evict => OldestFirst(cands[1..], Without(v, cands[0]), batch - 1);
    }
  }

  function Unpinned(cands: seq<Candidate>): seq<Candidate> {
    if cands == [] then []
    else if cands[0].pinned then Unpinned(cands[1..])
    else [cands[0]] + Unpinned(cands[1..])
  }

  lemma {:induction false} NothingWanted(cands: seq<Candidate>, v: View, batch: nat)
    requires v.maxAgeMs <= 0 && !Violates(v)
    ensures Picks(cands, v, batch) == []
  {
    if cands != [] && batch > 0 {
      NothingWanted(cands[1..], v, batch);
    }
  }

  // ---- the limits, written out ----------------------------------------------------

  /** With no count or byte limit violated, the picks are the unpinned candidates older than
      max_age, oldest first, up to the batch. */
  function Overage(cands: seq<Candidate>, v: View): seq<Candidate> {
    if cands == [] then []
    else if !cands[0].pinned && v.maxAgeMs > 0 && v.nowMs - cands[0].publishedAt > v.maxAgeMs
    then [cands[0]] + Overage(cands[1..], v)
    else Overage(cands[1..], v)
  }

  lemma {:induction false} SameOverage(cands: seq<Candidate>, v: View, w: View)
    requires v.maxAgeMs == w.maxAgeMs && v.nowMs == w.nowMs
    ensures Overage(cands, v) == Overage(cands, w)
  {
    if cands != [] {
      SameOverage(cands[1..], v, w);
    }
  }

  lemma {:induction false} OnlyAgePicks(cands: seq<Candidate>, v: View, batch: nat)
    requires !(v.maxMsgs > 0 && v.msgs > v.maxMsgs) && !(v.maxBytes > 0 && v.bytes > v.maxBytes)
    ensures var aged := Overage(cands, v);
            Picks(cands, v, batch) == if |aged| <= batch then aged else aged[..batch]
    decreases |cands|
  {
    if cands != [] && batch > 0 {
      var w := Without(v, cands[0]);
      OnlyAgePicks(cands[1..], v, batch);
      OnlyAgePicks(cands[1..], w, batch - 1);
      SameOverage(cands[1..], v, w);
    }
  }

  /** In general a pick is overage, or more than one message was left and, after the picks
      before it, still too many messages or too many bytes. */
  lemma PickReasons(cands: seq<Candidate>, v: View, batch: nat, k: nat)
    requires k < |Picks(cands, v, batch)|
    ensures var picks := Picks(cands, v, batch);
            || (v.maxAgeMs > 0 && v.nowMs - picks[k].publishedAt > v.maxAgeMs)
            || (v.msgs - k > 1
                && ((v.maxMsgs > 0 && v.msgs - k > v.maxMsgs)
                    || (v.maxBytes > 0 && v.bytes - Bytes(picks[..k]) > v.maxBytes)))
  {
    PicksSound(cands, v, batch, k);
  }

  /** And a sweep short of its batch leaves one message at most; or else no unpinned one that
      is overage, and count and bytes within their limits unless all it leaves is pinned. */
  lemma ShortSweepMeetsLimits(cands: seq<Candidate>, v: View, batch: nat)
    requires |Picks(cands, v, batch)| < batch
    ensures var picks, rest := Picks(cands, v, batch), Rest(cands, v, batch);
            var msgs, bytes := v.msgs - |picks|, v.bytes - Bytes(picks);
            msgs > 1 ==>
              && (forall i | 0 <= i < |rest| && !rest[i].pinned && v.maxAgeMs > 0 ::
                    v.nowMs - rest[i].publishedAt <= v.maxAgeMs)
              && (((v.maxMsgs > 0 ==> msgs <= v.maxMsgs) && (v.maxBytes > 0 ==> bytes <= v.maxBytes))
                  || forall i | 0 <= i < |rest| :: rest[i].pinned)
  {
    ShortSweepIsDone(cands, v, batch);
  }

  /** `more` is a full batch that leaves too many messages or bytes. */
  lemma MoreMeans(picks: seq<Candidate>, blocked: seq<Candidate>, v: View, batch: int)
    ensures Report(picks, blocked, v, batch).more <==>
            |picks| == batch
            && ((v.maxMsgs > 0 && v.msgs - |picks| > v.maxMsgs)
                || (v.maxBytes > 0 && v.bytes - Bytes(picks) > v.maxBytes))
  {
  }

  lemma {:induction false} HighestIsMax(cs: seq<Candidate>)
    requires forall i | 0 <= i < |cs| :: cs[i].seqNo > 0
    ensures forall i | 0 <= i < |cs| :: cs[i].seqNo <= Highest(cs)
    ensures if cs == [] then Highest(cs) == 0 else exists i :: 0 <= i < |cs| && cs[i].seqNo == Highest(cs)
  {
    if cs != [] {
      var n := |cs| - 1;
      HighestIsMax(cs[..n]);
      assert forall i | 0 <= i < n :: cs[i] == cs[..n][i];
      if cs[n].seqNo < Highest(cs[..n]) {
        var i :| 0 <= i < n && cs[..n][i].seqNo == Highest(cs[..n]);
        assert cs[i].seqNo == Highest(cs);
      } else {
        assert cs[n].seqNo == Highest(cs);
      }
    }
  }

  // ---- batching -----------------------------------------------------------------

  /** A candidate skipped now is skipped after any further evictions. */
  lemma SkipStays(c: Candidate, v: View, picks: seq<Candidate>)
    requires Choose(c, v) == Skip
    ensures Choose(c, After(v, picks)) == Skip
  {
  }

  /** Batching does not change eviction: one sweep of b1 + b2 evicts what a sweep of b1
      and then a sweep of b2 over the leftovers and the reduced counters evict. */
  lemma {:induction false} BatchingIsInvisible(cands: seq<Candidate>, v: View, b1: nat, b2: nat)
    ensures var first := Picks(cands, v, b1);
            Picks(cands, v, b1 + b2) == first + Picks(Rest(cands, v, b1), After(v, first), b2)
    decreases |cands|
  {
    var first := Picks(cands, v, b1);
    if b1 == 0 || cands == [] {
      assert first == [] && After(v, []) == v;
    } else {
      var c, tail := cands[0], cands[1..];
      match Choose(c, v)
      case Skip =>
        BatchingIsInvisible(tail, v, b1, b2);
        SkipStays(c, v, first);
        var rest := [c] + Rest(tail, v, b1);
        assert rest[1..] == Rest(tail, v, b1);
      case Stop =>
        assert After(v, []) == v;
      case Evict =>
        var w := Without(v, c);
        BatchingIsInvisible(tail, w, b1 - 1, b2);
        var p := Picks(tail, w, b1 - 1);
        assert first == [c] + p && first[1..] == p;
        assert After(v, first) == After(w, p);
    }
  }

  /** The janitor's loop: sweep again while a saturated batch leaves a limit violated. */
  function Drain(cands: seq<Candidate>, v: View, batch: nat): seq<Candidate>
    requires batch > 0
    decreases |cands|
  {
    var picks := Picks(cands, v, batch);
    PicksSizes(cands, v, batch);
    if |picks| == batch && Violates(After(v, picks))
    then picks + Drain(Rest(cands, v, batch), After(v, picks), batch)
    else picks
  }

  lemma {:induction false} BatchOfAll(cands: seq<Candidate>, v: View, b: nat)
    requires b >= |cands|
    ensures Picks(cands, v, b) == Picks(cands, v, |cands|)
  {
    if cands != [] {
      match Choose(cands[0], v)
      case Skip =>
        BatchOfAll(cands[1..], v, b);
        BatchOfAll(cands[1..], v, |cands|);
      case Stop =>
      case Evict => BatchOfAll(cands[1..], Without(v, cands[0]), b - 1);
    }
  }

  /** Draining never evicts anything one unbounded sweep would not, nor out of order:
      with an age limit it may stop early, since `more` ignores age. */
  lemma {:induction false} DrainIsPrefix(cands: seq<Candidate>, v: View, batch: nat)
    requires batch > 0
    ensures Drain(cands, v, batch) <= Picks(cands, v, |cands|)
    decreases |cands|
  {
    var picks, rest := Picks(cands, v, batch), Rest(cands, v, batch);
    var now := After(v, picks);
    PicksSizes(cands, v, batch);
    BatchingIsInvisible(cands, v, batch, |cands|);
    BatchOfAll(cands, v, batch + |cands|);
    BatchOfAll(rest, now, |cands|);
    if |picks| == batch && Violates(now) {
      DrainIsPrefix(rest, now, batch);
    }
  }

  /** With no other limit violated, a sweep of the leftovers takes something exactly when
      an unpinned candidate among them has aged. */
  lemma {:induction false} OnlyAgeWants(cands: seq<Candidate>, v: View, batch: nat)
    requires !Violates(v) && batch > 0
    ensures Picks(cands, v, batch) == [] <==> NoneAged(cands, v)
  {
    if cands != [] {
      OnlyAgeWants(cands[1..], v, batch);
      assert forall i | 0 < i < |cands| :: cands[i] == cands[1..][i - 1];
    }
  }

  /** What a sweep that does not ask for another leaves undone: nothing, exactly when it
      was short of its batch or left no unpinned aged candidate. */
  lemma LastSweepFinishesIff(cands: seq<Candidate>, v: View, batch: nat)
    requires batch > 0
    requires var picks := Picks(cands, v, batch); !(|picks| == batch && Violates(After(v, picks)))
    ensures var picks, rest := Picks(cands, v, batch), Rest(cands, v, batch); var now := After(v, picks);
            Picks(rest, now, |cands|) == [] <==> |picks| < batch || NoneAged(rest, now)
  {
    var picks, rest := Picks(cands, v, batch), Rest(cands, v, batch);
    PicksSizes(cands, v, batch);
    if |picks| < batch {
      ShortSweepStays(cands, v, batch, |cands|);
    } else {
      OnlyAgeWants(rest, After(v, picks), |cands|);
    }
  }

  /** After every full batch of `p` but the last a limit is still violated. */
  ghost predicate Presses(p: seq<Candidate>, v: View, batch: nat)
    requires batch > 0
    decreases |p|
  {
    |p| <= batch || (Violates(After(v, p[..batch])) && Presses(p[batch..], After(v, p[..batch]), batch))
  }

  /** Draining in batches evicts exactly what one unbounded sweep would, `p`, if and only if
      a limit other than age is still violated after each full batch of `p` but the last. */
  lemma {:induction false} DrainIsOneSweepIff(cands: seq<Candidate>, v: View, batch: nat)
    requires batch > 0
    ensures var p := Picks(cands, v, |cands|);
            Drain(cands, v, batch) == p <==> Presses(p, v, batch)
    decreases |cands|
  {
    var p := Picks(cands, v, |cands|);
    var first, rest := Picks(cands, v, batch), Rest(cands, v, batch);
    var now := After(v, first);
    var more := Picks(rest, now, |rest|);
    PicksSizes(cands, v, batch);
    BatchingIsInvisible(cands, v, batch, |cands|);
    BatchOfAll(cands, v, batch + |cands|);
    BatchOfAll(rest, now, |cands|);
    assert p == first + more;
    if |first| < batch {
      ShortSweepStays(cands, v, batch, |rest|);
    } else {
      assert p[..batch] == first && p[batch..] == more;
      if Violates(now) {
        DrainIsOneSweepIff(rest, now, batch);
        SamePrefix(first, Drain(rest, now, batch), more);
        if |more| == 0 {
          DrainIsPrefix(rest, now, batch);
        }
      } else {
        SamePrefix(first, [], more);
      }
    }
  }

  lemma SamePrefix(p: seq<Candidate>, a: seq<Candidate>, b: seq<Candidate>)
    ensures p + a == p + b <==> a == b
  {
    assert (p + a)[|p|..] == a && (p + b)[|p|..] == b;
  }

  /** Two aged messages, no other limit, a batch of one: the loop stops after the first,
      where one sweep would take both. */
  lemma DrainStopsEarly()
    ensures var c1, c2 := Candidate(1, 1, 0, false), Candidate(2, 1, 0, false);
            var v := View(0, 0, 1, 2, 2, 10);
            Drain([c1, c2], v, 1) == [c1] && Picks([c1, c2], v, 2) == [c1, c2]
  {
    var c1, c2 := Candidate(1, 1, 0, false), Candidate(2, 1, 0, false);
    var v := View(0, 0, 1, 2, 2, 10);
    var w := Without(v, c1);
    assert [c1, c2][1..] == [c2] && [c2][1..] == [];
    assert Picks([c2], w, 1) == [c2];
    assert Picks([c1, c2], v, 1) == [c1];
  }

  /** Without an age limit, draining in batches of any size evicts exactly what one
      unbounded sweep would. */
  lemma DrainIsOneSweep(cands: seq<Candidate>, v: View, batch: nat)
    requires batch > 0 && v.maxAgeMs <= 0
    ensures Drain(cands, v, batch) == Picks(cands, v, |cands|)
  {
    var p := Picks(cands, v, |cands|);
    forall k | 0 <= k < |p| ensures Violates(After(v, p[..k])) {
      PicksSound(cands, v, |cands|, k);
    }
    AlwaysPresses(p, v, batch);
    DrainIsOneSweepIff(cands, v, batch);
  }

  lemma {:induction false} AlwaysPresses(p: seq<Candidate>, v: View, batch: nat)
    requires batch > 0 && forall k | 0 <= k < |p| :: Violates(After(v, p[..k]))
    ensures Presses(p, v, batch)
    decreases |p|
  {
    if |p| > batch {
      var q, w := p[batch..], After(v, p[..batch]);
      forall k | 0 <= k < |q| ensures Violates(After(w, q[..k])) {
        assert p[..batch + k] == p[..batch] + q[..k];
        AfterAppend(v, p[..batch], q[..k]);
      }
      AlwaysPresses(q, w, batch);
    }
  }

  lemma {:induction false} BytesAppend(a: seq<Candidate>, b: seq<Candidate>)
    ensures Bytes(a + b) == Bytes(a) + Bytes(b)
  {
    if a == [] {
      assert a + b == b;
    } else {
      BytesAppend(a[1..], b);
      assert (a + b)[1..] == a[1..] + b;
    }
  }

  lemma AfterAppend(v: View, a: seq<Candidate>, b: seq<Candidate>)
    ensures After(v, a + b) == After(After(v, a), b)
  {
    BytesAppend(a, b);
  }

  /** A short sweep leaves nothing for a follow-up sweep. */
  lemma {:induction false} ShortSweepStays(cands: seq<Candidate>, v: View, batch: nat, more: nat)
    requires |Picks(cands, v, batch)| < batch
    ensures Picks(Rest(cands, v, batch), After(v, Picks(cands, v, batch)), more) == []
    decreases |cands|
  {
    if cands == [] {
    } else {
      var c, tail := cands[0], cands[1..];
      match Choose(c, v)
      case Skip =>
        ShortSweepStays(tail, v, batch, more);
        SkipStays(c, v, Picks(tail, v, batch));
        assert ([c] + Rest(tail, v, batch))[1..] == Rest(tail, v, batch);
      case Stop => assert After(v, []) == v;
      case Evict =>
        var w := Without(v, c);
        ShortSweepStays(tail, w, batch - 1, more);
        var p := Picks(tail, w, batch - 1);
        assert ([c] + p)[1..] == p;
        assert After(v, [c] + p) == After(w, p);
    }
  }

  // ---- the window ------------------------------------------------------------------------

  /** The walk over `cands` came to its stop before the end. */
  predicate Stops(cands: seq<Candidate>, v: View, batch: nat) {
    if cands == [] || batch == 0 then false
    else
      match Choose(cands[0], v)
      case Skip => Stops(cands[1..], v, batch)
      case Stop => true
      case Evict => Stops(cands[1..], Without(v, cands[0]), batch - 1)
  }

  /** What a walk over `a` and then `b` takes. */
  function Walk(a: seq<Candidate>, b: seq<Candidate>, v: View, batch: nat): seq<Candidate> {
    var picks := Picks(a, v, batch);
    if Stops(a, v, batch) || |picks| > batch then picks else picks + Picks(b, After(v, picks), batch - |picks|)
  }

  lemma WalkEvict(c: Candidate, tail: seq<Candidate>, b: seq<Candidate>, v: View, batch: nat)
    requires batch > 0 && Choose(c, v) == Evict
    ensures Walk([c] + tail, b, v, batch) == [c] + Walk(tail, b, Without(v, c), batch - 1)
  {
    var w := Without(v, c);
    var p := Picks(tail, w, batch - 1);
    assert ([c] + tail)[1..] == tail;
    assert Picks([c] + tail, v, batch) == [c] + p;
    AfterCons(v, c, p);
    if |p| <= batch - 1 {
      var more := Picks(b, After(w, p), batch - 1 - |p|);
      assert [c] + (p + more) == ([c] + p) + more;
    }
  }

  lemma WalkSkip(c: Candidate, tail: seq<Candidate>, b: seq<Candidate>, v: View, batch: nat)
    requires batch > 0 && Choose(c, v) == Skip
    ensures Walk([c] + tail, b, v, batch) == Walk(tail, b, v, batch)
  {
    assert ([c] + tail)[1..] == tail;
  }

  /** A walk over two stretches is a walk over the first and, unless it stopped there, one
      over the second with what is left of the batch. */
  lemma {:induction false} PicksAppend(a: seq<Candidate>, b: seq<Candidate>, v: View, batch: nat)
    ensures Picks(a + b, v, batch) == Walk(a, b, v, batch)
    decreases |a|
  {
    if a == [] {
      assert a + b == b && After(v, []) == v;
    } else if batch > 0 {
      var c, tail := a[0], a[1..];
      assert a == [c] + tail && (a + b)[1..] == tail + b;
      match Choose(c, v)
      case Skip =>
        PicksAppend(tail, b, v, batch);
        WalkSkip(c, tail, b, v, batch);
      case Stop =>
      case Evict =>
        PicksAppend(tail, b, Without(v, c), batch - 1);
        WalkEvict(c, tail, b, v, batch);
    }
  }

  /** With more than one message left, a sweep takes something exactly when a violated limit
      finds an unpinned candidate, or else age does. */
  lemma {:induction false} TakesNothingIff(cands: seq<Candidate>, v: View, batch: nat)
    requires batch > 0 && v.msgs > 1
    ensures Picks(cands, v, batch) == [] <==> if Violates(v) then AllPinned(cands) else NoneAged(cands, v)
  {
    if cands != [] {
      TakesNothingIff(cands[1..], v, batch);
      assert forall i | 0 < i < |cands| :: cands[i] == cands[1..][i - 1];
    }
  }

  const MAX_BLAME_HOLDERS: nat := 64

  /** The oldest candidates, which is all that one sweep of a stream looks at. */
  function Window(stream: seq<Candidate>, batch: nat): seq<Candidate> {
    var n := 2 * batch + MAX_BLAME_HOLDERS;
    if |stream| <= n then stream else stream[..n]
  }

  function Beyond(stream: seq<Candidate>, batch: nat): seq<Candidate> {
    stream[|Window(stream, batch)|..]
  }

  /** A sweep of the window takes what a sweep of the whole stream would if and only if it
      fills its batch, or nothing past the window is to be taken: all of it pinned if a
      limit is still violated, none of it aged and unpinned otherwise. */
  lemma WindowSufficesIff(stream: seq<Candidate>, v: View, batch: nat)
    requires batch > 0 && v.msgs >= |stream|
    ensures var picks := Picks(Window(stream, batch), v, batch); var now := After(v, picks);
            picks == Picks(stream, v, batch) <==>
            |picks| == batch
            || if Violates(now) then AllPinned(Beyond(stream, batch)) else NoneAged(Beyond(stream, batch), now)
  {
    var window, beyond := Window(stream, batch), Beyond(stream, batch);
    var picks := Picks(window, v, batch);
    var now := After(v, picks);
    assert stream == window + beyond;
    PicksAppend(window, beyond, v, batch);
    PicksSizes(window, v, batch);
    StopsAtOne(window, v, batch);
    if beyond == [] {
      assert window == stream;
    } else if |picks| < batch {
      TakesNothingIff(beyond, now, batch - |picks|);
      SamePrefix(picks, [], Picks(beyond, now, batch - |picks|));
      assert picks + [] == picks;
    } else {
      assert Picks(beyond, now, 0) == [];
    }
  }

  /** A walk stops only when a single message is left. */
  lemma {:induction false} StopsAtOne(cands: seq<Candidate>, v: View, batch: nat)
    ensures Stops(cands, v, batch) ==> After(v, Picks(cands, v, batch)).msgs <= 1
    decreases |cands|
  {
    if cands != [] && batch > 0 {
      match Choose(cands[0], v)
      case Skip => StopsAtOne(cands[1..], v, batch);
      case Stop => assert After(v, []) == v;
      case Evict =>
        StopsAtOne(cands[1..], Without(v, cands[0]), batch - 1);
        AfterCons(v, cands[0], Picks(cands[1..], Without(v, cands[0]), batch - 1));
    }
  }

  /** A window pinned through and through takes nothing, sweep after sweep, whatever lies
      past it. */
  lemma {:induction false} PinnedWindowStalls(cands: seq<Candidate>, v: View, batch: nat)
    requires AllPinned(cands)
    ensures Picks(cands, v, batch) == []
  {
    if cands != [] && batch > 0 {
      assert forall i | 0 < i < |cands| :: cands[i] == cands[1..][i - 1];
      PinnedWindowStalls(cands[1..], v, batch);
    }
  }

  /** Such a stream, for every batch size: one more message than the window, that one
      unpinned, and a limit violated. */
  lemma StalledStream(batch: nat) returns (stream: seq<Candidate>, v: View)
    requires batch > 0
    ensures Picks(Window(stream, batch), v, batch) == [] && Picks(stream, v, batch) != []
    ensures v.msgs == |stream| && v.maxMsgs > 0
  {
    var n := 2 * batch + MAX_BLAME_HOLDERS;
    stream := seq(n + 1, i => Candidate(i + 1, 1, 0, i < n));
    v := View(1, 0, 0, n + 1, n + 1, 0);
    var window := Window(stream, batch);
    PinnedWindowStalls(window, v, batch);
    assert After(v, []) == v;
    assert Beyond(stream, batch) == [stream[n]];
    assert !Beyond(stream, batch)[0].pinned;
    WindowSufficesIff(stream, v, batch);
  }
}
