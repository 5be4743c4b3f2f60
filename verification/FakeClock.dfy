/** The deterministic clock's timer queue: heap objects in a list edited in place. */
module FakeClock {
  import opened Common

  /** One timer (period 0) or ticker; `tick` is its one-slot channel. */
  class Waiter {
    var deadline: int
    var period: int
    var seqNo: nat
    var armed: bool
    var tick: Option<int>

    constructor (at: int, every: int, n: nat)
      ensures deadline == at && period == every && seqNo == n && armed && tick == None
    {
      deadline, period, seqNo, armed, tick := at, every, n, true, None;
    }
  }

  /** Firing order: deadline, then arming sequence. */
  ghost predicate Before(a: Waiter, b: Waiter)
    reads a, b
  {
    a.deadline < b.deadline || (a.deadline == b.deadline && a.seqNo < b.seqNo)
  }

  function Without(ws: seq<Waiter>, w: Waiter): (r: seq<Waiter>)
    ensures forall i | 0 <= i < |r| :: r[i] in ws && r[i] != w
    ensures forall i | 0 <= i < |ws| && ws[i] != w :: ws[i] in r
    ensures Distinct(ws) ==> Distinct(r)
  {
    if ws == [] then []
    else if ws[0] == w then Without(ws[1..], w)
    else [ws[0]] + Without(ws[1..], w)
  }

  lemma {:induction false} WithoutSnoc(ws: seq<Waiter>, x: Waiter, w: Waiter)
    ensures Without(ws + [x], w) == Without(ws, w) + if x == w then [] else [x]
  {
    if ws == [] {
      assert ws + [x] == [x];
    } else {
      WithoutSnoc(ws[1..], x, w);
      assert (ws + [x])[1..] == ws[1..] + [x];
    }
  }

  ghost predicate Distinct(ws: seq<Waiter>) {
    forall i, j | 0 <= i < j < |ws| :: ws[i] != ws[j]
  }

  // ---- the grid ----------------------------------------------------------------------

  function Point(deadline: int, period: int, k: int): int {
    deadline + k * period
  }

  /** `next` is the least point deadline + k * period, k >= 1, after t. */
  ghost predicate OnGrid(deadline: int, period: int, t: int, next: int) {
    && (exists k :: k >= 1 && next == Point(deadline, period, k))
    && next > t
    && forall k | k >= 1 && Point(deadline, period, k) > t :: next <= Point(deadline, period, k)
  }

  function NextTick(deadline: int, period: int, t: int): int
    requires period > 0 && deadline <= t
  {
    var next := deadline + period;
    if next > t then next else deadline + period * ((t - deadline) / period + 1)
  }

  lemma PointsIncrease(deadline: int, period: int, j: int, k: int)
    requires period > 0 && j < k
    ensures Point(deadline, period, j) <= Point(deadline, period, k) - period
  {
    assert (k - j - 1) * period >= 0;
    assert k * period == (k - j - 1) * period + j * period + period;
  }

  /** The point after the last one at or before t. */
  lemma NextPoint(deadline: int, period: int, t: int) returns (k: int)
    requires period > 0 && deadline <= t
    ensures k >= 1 && NextTick(deadline, period, t) == Point(deadline, period, k)
    ensures Point(deadline, period, k) - period <= t < Point(deadline, period, k)
  {
    var x := t - deadline;
    var q := x / period;
    DivBounds(x, period);
    k := if deadline + period > t then 1 else q + 1;
    assert (q + 1) * period == q * period + period;
  }

  lemma DivBounds(x: int, p: int)
    requires p > 0 && x >= 0
    ensures x / p * p <= x < x / p * p + p && x / p >= 0
  {
  }

  lemma NextTickIsLeast(deadline: int, period: int, t: int)
    requires period > 0 && deadline <= t
    ensures OnGrid(deadline, period, t, NextTick(deadline, period, t))
  {
    var k := NextPoint(deadline, period, t);
    forall j | j >= 1 && Point(deadline, period, j) > t
      ensures Point(deadline, period, k) <= Point(deadline, period, j)
    {
      if j < k {
        PointsIncrease(deadline, period, j, k);
      } else if k < j {
        PointsIncrease(deadline, period, k, j);
      }
    }
  }

  // ---- the clock ---------------------------------------------------------------------

  class Fake {
    var now: int
    var seqNo: nat
    var waiters: seq<Waiter>
    ghost var all: set<Waiter>   // every waiter this clock ever armed

    /** The list is exactly the armed waiters, each once, with distinct numbers handed
        out so far. */
    ghost predicate Valid()
      reads this`waiters, this`seqNo, this`all, all
    {
      && (forall i | 0 <= i < |waiters| :: waiters[i] in all && waiters[i].armed)
      && (forall w | w in all && w.armed :: w in waiters)
      && Distinct(waiters)
      && (forall w | w in all :: w.seqNo <= seqNo)
      && (forall u, v | u in all && v in all && u != v :: u.seqNo != v.seqNo)
    }

    constructor (start: int)
      ensures Valid() && now == start && waiters == [] && all == {}
    {
      now, seqNo, waiters, all := start, 0, [], {};
    }

    method Arm(d: int, period: int) returns (w: Waiter)
      requires Valid()
      modifies this
      ensures Valid() && fresh(w) && all == old(all) + {w} && waiters == old(waiters) + [w]
      ensures w.deadline == now + d && w.period == period && w.armed && w.tick == None
      ensures now == old(now) && seqNo == old(seqNo) + 1 == w.seqNo
    {
      seqNo := seqNo + 1;
      w := new Waiter(now + d, period, seqNo);
      waiters := waiters + [w];
      all := all + {w};
    }

    method Drop(w: Waiter)
      modifies this`waiters
      ensures waiters == Without(old(waiters), w)
    {
      var kept: seq<Waiter> := [];
      for i := 0 to |waiters|
        invariant waiters == old(waiters) && kept == Without(waiters[..i], w)
      {
        assert waiters[..i + 1] == waiters[..i] + [waiters[i]];
        WithoutSnoc(waiters[..i], waiters[i], w);
        if waiters[i] != w {
          kept := kept + [waiters[i]];
        }
      }
      assert waiters[..|waiters|] == waiters;
      waiters := kept;
    }

    /** True exactly when it was still armed; afterwards it is not. */
    method Stop(w: Waiter) returns (was: bool)
      requires Valid() && w in all
      modifies this`waiters, w`armed
      ensures Valid() && was == old(w.armed) && !w.armed
      ensures waiters == if was then Without(old(waiters), w) else old(waiters)
    {
      if !w.armed {
        return false;
      }
      w.armed := false;
      Drop(w);
      was := true;
    }

    /** Re-arms behind everything already armed. */
    method Reset(w: Waiter, d: int, period: int) returns (was: bool)
      requires Valid() && w in all
      modifies this`waiters, this`seqNo, w`deadline, w`period, w`seqNo, w`armed
      ensures Valid() && was == old(w.armed) && w.armed
      ensures w.deadline == now + d && w.period == period && seqNo == old(seqNo) + 1 == w.seqNo
      ensures waiters == if was then old(waiters) else old(waiters) + [w]
      ensures forall u | u in all && u != w :: u.seqNo < w.seqNo
    {
      was := w.armed;
      w.deadline := now + d;
      w.period := period;
      seqNo := seqNo + 1;
      w.seqNo := seqNo;
      if !was {
        w.armed := true;
        waiters := waiters + [w];
      }
    }

    /** The waiters at or past their deadline, each once, in firing order. */
    method Due(t: int) returns (out: seq<Waiter>)
      requires Valid()
      ensures InOrder(out)
      ensures forall i | 0 <= i < |out| :: out[i] in waiters && out[i].deadline <= t
      ensures forall w | w in waiters && w.deadline <= t :: w in out
    {
      out := [];
      for n := 0 to |waiters|
        invariant InOrder(out)
        invariant forall i | 0 <= i < |out| :: out[i] in waiters[..n] && out[i].deadline <= t
        invariant forall k | 0 <= k < n && waiters[k].deadline <= t :: waiters[k] in out
      {
        var w := waiters[n];
        if w.deadline <= t {
          out := Place(out, w);
        }
      }
    }

    /** Fires one due waiter. */
    method Fire(w: Waiter, t: int)
      requires Valid() && w in waiters && w.deadline <= t
      modifies this`waiters, this`seqNo, w
      ensures Valid() && FiredTo(old(Look(w)), Look(w), t)
      ensures w.armed ==> seqNo == old(seqNo) + 1 == w.seqNo
    {
      if w.tick.None? {
        w.tick := Some(w.deadline);
      }
      if w.period <= 0 {
        w.armed := false;
        Drop(w);
      } else {
        NextTickIsLeast(w.deadline, w.period, t);
        w.deadline := NextTick(w.deadline, w.period, t);
        seqNo := seqNo + 1;
        w.seqNo := seqNo;
      }
    }

    method FireAll(due: seq<Waiter>, t: int)
      requires Valid() && Distinct(due)
      requires forall i | 0 <= i < |due| :: due[i] in all && due[i].armed && due[i].deadline <= t
      modifies this`waiters, this`seqNo, all
      ensures Valid()
      ensures forall i | 0 <= i < |due| :: FiredTo(old(Look(due[i])), Look(due[i]), t)
      ensures forall w | w in all && w !in due :: Look(w) == old(Look(w))
      ensures Renumbered(due, |due|)
      ensures forall w | w in due && w.armed :: w.deadline > t
    {
      ghost var done: set<Waiter> := {};
      for n := 0 to |due|
        invariant Valid() && done <= all
        invariant forall i | 0 <= i < |due| :: due[i] in done <==> i < n
        invariant forall w | w in done :: w in due && FiredTo(old(Look(w)), Look(w), t)
        invariant forall w | w in all && w !in done :: Look(w) == old(Look(w))
        invariant Renumbered(due, n)
      {
        ghost var w := due[n];
        assert Look(w) == old(Look(w)) && w.armed;
        Fire(due[n], t);
        done := done + {w};
      }
    }

    /** Moves to t, earlier or later. Fires exactly the waiters due there, each once and in
        (deadline, sequence) order; touches no other; leaves nothing due. */
    method Set(t: int) returns (ghost fired: seq<Waiter>)
      requires Valid()
      modifies this`now, this`waiters, this`seqNo, all
      ensures Valid() && now == t
      ensures forall i | 0 <= i < |fired| :: fired[i] in old(waiters) && old(fired[i].deadline) <= t
      ensures forall w | w in old(waiters) && old(w.deadline) <= t :: w in fired
      ensures old(InOrder(fired))
      ensures forall i | 0 <= i < |fired| :: FiredTo(old(Look(fired[i])), Look(fired[i]), t)
      ensures forall w | w in all && w !in fired :: Look(w) == old(Look(w))
      ensures Renumbered(fired, |fired|)
      ensures forall w | w in all && w.armed :: w.deadline > t
    {
      var due := Due(t);
      fired := due;
      OrderedIsDistinct(due);
      FireAll(due, t);
      now := t;
    }
  }

  /** The tickers among the first n were numbered anew in this order. */
  ghost predicate Renumbered(ws: seq<Waiter>, n: nat)
    reads ws
  {
    forall i, j | 0 <= i < j < n <= |ws| && ws[i].armed && ws[j].armed :: ws[i].seqNo < ws[j].seqNo
  }

  /** A waiter's fields. */
  datatype Snap = Snap(deadline: int, period: int, seqNo: nat, armed: bool, tick: Option<int>)

  ghost function Look(w: Waiter): Snap
    reads w
  {
    Snap(w.deadline, w.period, w.seqNo, w.armed, w.tick)
  }

  /** Firing leaves one tick if the channel has room; a timer is disarmed; a ticker moves
      to the least grid point after t, behind everything armed so far. */
  ghost predicate FiredTo(a: Snap, b: Snap, t: int) {
    && b.tick == (if a.tick.None? then Some(a.deadline) else a.tick) && b.period == a.period
    && b.armed == (a.period > 0)
    && (a.period > 0 ==> OnGrid(a.deadline, a.period, t, b.deadline) && b.seqNo > a.seqNo)
  }

  lemma OrderedIsDistinct(ws: seq<Waiter>)
    requires InOrder(ws)
    ensures Distinct(ws)
  {
    forall i, j | 0 <= i < j < |ws| ensures ws[i] != ws[j] {
      assert Before(ws[i], ws[j]);
    }
  }

  ghost predicate InOrder(ws: seq<Waiter>)
    reads ws
  {
    forall i, j | 0 <= i < j < |ws| :: Before(ws[i], ws[j])
  }

  /** Sorted insertion. */
  method Place(ws: seq<Waiter>, w: Waiter) returns (out: seq<Waiter>)
    requires InOrder(ws) && forall i | 0 <= i < |ws| :: ws[i].seqNo != w.seqNo
    ensures InOrder(out) && w in out
    ensures forall i | 0 <= i < |ws| :: ws[i] in out
    ensures forall i | 0 <= i < |out| :: out[i] == w || out[i] in ws
  {
    var p := 0;
    while p < |ws| && (ws[p].deadline < w.deadline || (ws[p].deadline == w.deadline && ws[p].seqNo < w.seqNo))
      invariant 0 <= p <= |ws| && forall i | 0 <= i < p :: Before(ws[i], w)
    {
      p := p + 1;
    }
    out := ws[..p] + [w] + ws[p..];
    assert forall i | 0 <= i < p :: out[i] == ws[i];
    assert forall i | p <= i < |ws| :: out[i + 1] == ws[i];
  }
}
