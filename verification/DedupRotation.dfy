/** The janitor's dedup sweep: each run covers one un-wrapped window of the stream list,
    and the cursor carries the rotation from run to run. */
module DedupRotation {

  const DEFAULT_LIMIT: nat := 32

  /** What sweeping the i-th stream of a window did; `expired` is the budget afterwards. */
  datatype Sweep = Failed | Cleared(rows: nat, expired: bool)

  function Bound(cursor: nat, limit: nat, n: nat): int {
    if n - cursor < limit then n - cursor else limit
  }

  /** Successful sweeps from the i-th on. */
  function Sweeps(bound: int, o: nat -> Sweep, i: nat): (k: nat)
    ensures i <= bound ==> i + k <= bound
    ensures i > bound ==> k == 0
    decreases bound - i
  {
    if i >= bound then 0
    else
      match o(i)
      case Failed => 0
      case Cleared(_, expired) => if expired then 1 else 1 + Sweeps(bound, o, i + 1)
  }

  /** How many streams one run sweeps successfully, and which. */
  function Swept(cursor: nat, limit: nat, n: nat, o: nat -> Sweep): nat {
    Sweeps(Bound(cursor, limit, n), o, 0)
  }

  /** Rows cleared by the first k sweeps. */
  function TotalRows(o: nat -> Sweep, k: nat): nat {
    if k == 0 then 0 else TotalRows(o, k - 1) + if o(k - 1).Cleared? then o(k - 1).rows else 0
  }

  function Visited(cursor: nat, limit: nat, n: nat, o: nat -> Sweep): seq<nat> {
    seq(Swept(cursor, limit, n, o), j requires j >= 0 => cursor + j)
  }

  function NextCursor(cursor: nat, limit: nat, n: nat, o: nat -> Sweep): nat
    requires n > 0
  {
    (cursor + Swept(cursor, limit, n, o)) % n
  }

  /** All indices swept by a series of runs over the same list. */
  function Trace(cursor: nat, limit: nat, n: nat, os: seq<nat -> Sweep>): seq<nat>
    requires n > 0
    decreases |os|
  {
    if os == [] then []
    else Visited(cursor, limit, n, os[0]) + Trace(NextCursor(cursor, limit, n, os[0]), limit, n, os[1..])
  }

  // ---- modular arithmetic --------------------------------------------------------------

  lemma {:induction false} ModPeriod(x: nat, q: nat, n: nat)
    requires n > 0
    ensures (x + q * n) % n == x % n
  {
    if q > 0 {
      ModPeriod(x, q - 1, n);
      ModShift(x + (q - 1) * n, n);
      assert x + q * n == x + (q - 1) * n + n;
    }
  }

  lemma ModShift(x: nat, n: nat)
    requires n > 0
    ensures (x + n) % n == x % n
  {
    var q := x / n;
    var r := x % n;
    assert x + n == (q + 1) * n + r;
    UniqueRemainder(x + n, q + 1, r, n);
  }

  lemma Multiple(d: int, n: int)
    requires n > 0
    ensures d >= 1 ==> d * n >= n
    ensures d <= -1 ==> d * n <= -n
  {
  }

  lemma UniqueRemainder(x: int, q: int, r: int, n: int)
    requires n > 0 && 0 <= r < n && x == q * n + r
    ensures x % n == r
  {
    var d := x / n - q;
    assert x == x / n * n + x % n;
    assert d * n == r - x % n;
    Multiple(d, n);
  }

  /** A sum of two remainders wraps at most once. */
  lemma ModSum(r: nat, d: nat, n: nat)
    requires r < n && d < n
    ensures (r + d) % n == if r + d < n then r + d else r + d - n
  {
    UniqueRemainder(r + d, if r + d < n then 0 else 1, if r + d < n then r + d else r + d - n, n);
  }

  lemma ModAdd(x: nat, y: nat, n: nat)
    requires n > 0
    ensures (x % n + y) % n == (x + y) % n
  {
    var q := x / n;
    assert x + y == x % n + y + q * n;
    ModPeriod(x % n + y, q, n);
  }

  // ---- the rotation ----------------------------------------------------------------------

  /** Successful sweeps visit consecutive indices modulo n, whatever expires or fails, and
      wherever the cursor was left. */
  lemma {:induction false} TraceIsConsecutive(cursor: nat, limit: nat, n: nat, os: seq<nat -> Sweep>, i: nat)
    requires n > 0 && i < |Trace(cursor, limit, n, os)|
    ensures Trace(cursor, limit, n, os)[i] == (cursor + i) % n
    decreases |os|
  {
    var v := Visited(cursor, limit, n, os[0]);
    if i < |v| {
      UniqueRemainder(cursor + i, 0, cursor + i, n);
    } else {
      var c := NextCursor(cursor, limit, n, os[0]);
      TraceIsConsecutive(c, limit, n, os[1..], i - |v|);
      ModAdd(cursor + |v|, i - |v|, n);
    }
  }

  /** Where in a window of n consecutive sweeps a stream's turn comes. */
  function Turn(cursor: nat, n: nat, from: nat, s: nat): nat
    requires s < n
  {
    var r := (cursor + from) % n;
    from + if s >= r then s - r else s + n - r
  }

  lemma TurnIsUnique(cursor: nat, n: nat, from: nat, s: nat, i: nat)
    requires s < n && from <= i < from + n
    ensures from <= Turn(cursor, n, from, s) < from + n
    ensures (cursor + i) % n == s <==> i == Turn(cursor, n, from, s)
  {
    var r := (cursor + from) % n;
    ModAdd(cursor + from, i - from, n);
    ModSum(r, i - from, n);
    TurnArithmetic(r, n, from, s, i, (cursor + i) % n);
  }

  lemma TurnArithmetic(r: nat, n: nat, from: nat, s: nat, i: nat, m: nat)
    requires r < n && s < n && from <= i < from + n
    requires m == if r + (i - from) < n then r + (i - from) else r + (i - from) - n
    ensures var turn := from + if s >= r then s - r else s + n - r;
            from <= turn < from + n && (m == s <==> i == turn)
  {
  }

  /** Any n consecutive successful sweeps cover every stream exactly once. */
  lemma EveryStreamOnce(cursor: nat, limit: nat, n: nat, os: seq<nat -> Sweep>, from: nat, s: nat)
    requires s < n && from + n <= |Trace(cursor, limit, n, os)|
    ensures exists i :: from <= i < from + n && Trace(cursor, limit, n, os)[i] == s
    ensures forall i, j | from <= i < from + n && from <= j < from + n
                          && Trace(cursor, limit, n, os)[i] == s && Trace(cursor, limit, n, os)[j] == s :: i == j
  {
    var t := Trace(cursor, limit, n, os);
    forall i | from <= i < from + n ensures t[i] == s <==> i == Turn(cursor, n, from, s) {
      TraceIsConsecutive(cursor, limit, n, os, i);
      TurnIsUnique(cursor, n, from, s, i);
    }
    TurnIsUnique(cursor, n, from, s, from);
    assert t[Turn(cursor, n, from, s)] == s;
  }

  /** A cursor stranded past a shrunken list sweeps nothing and is back in range after one
      run; one in range always sweeps at least one stream unless the first one fails. */
  lemma StrandedReenters(cursor: nat, limit: nat, n: nat, o: nat -> Sweep)
    requires n > 0 && limit > 0
    ensures NextCursor(cursor, limit, n, o) < n
    ensures cursor >= n ==> Swept(cursor, limit, n, o) == 0 && NextCursor(cursor, limit, n, o) == cursor % n
    ensures cursor < n && o(0).Cleared? ==> Swept(cursor, limit, n, o) >= 1
    ensures Swept(cursor, limit, n, o) <= limit && (cursor < n ==> cursor + Swept(cursor, limit, n, o) <= n)
  {
  }

  lemma {:induction false} SweepsToTheEnd(bound: int, o: nat -> Sweep, i: nat)
    requires i <= bound && forall k | i <= k < bound :: o(k).Cleared? && !o(k).expired
    ensures Sweeps(bound, o, i) == bound - i
    decreases bound - i
  {
    if i < bound {
      SweepsToTheEnd(bound, o, i + 1);
    }
  }

  /** A run that nothing interrupts sweeps as many streams as its limit allows and the list
      still has. */
  lemma UninterruptedIsFull(cursor: nat, limit: nat, n: nat, o: nat -> Sweep)
    requires cursor <= n && forall k | 0 <= k < limit && k < n - cursor :: o(k).Cleared? && !o(k).expired
    ensures Swept(cursor, limit, n, o) == if limit < n - cursor then limit else n - cursor
  {
    SweepsToTheEnd(if limit < n - cursor then limit else n - cursor, o, 0);
  }

  // ---- the job -----------------------------------------------------------------------------

  class DedupJob {
    var cursor: nat
    const limit: nat

    constructor (start: nat, k: int)
      ensures cursor == start && limit == if k <= 0 then DEFAULT_LIMIT else k
    {
      cursor, limit := start, if k <= 0 then DEFAULT_LIMIT else k;
    }

    /** One run over the listed streams; `swept` of them succeeded. */
    method Run(streams: seq<string>, o: nat -> Sweep) returns (rows: nat, more: bool, failed: bool, swept: nat)
      modifies this
      ensures streams == [] ==> cursor == old(cursor) && swept == 0 && !failed && !more && rows == 0
      ensures streams != [] ==> swept == Swept(old(cursor), limit, |streams|, o)
                                && cursor == NextCursor(old(cursor), limit, |streams|, o)
      ensures rows == TotalRows(o, swept)
      ensures streams != [] ==> (more <==> !failed && swept == limit && old(cursor) + swept < |streams|)
      ensures streams != [] && !failed ==>
                swept >= Bound(old(cursor), limit, |streams|) || (swept > 0 && o(swept - 1).Cleared? && o(swept - 1).expired)
      ensures failed ==> o(swept).Failed? && cursor == old(cursor) + swept < |streams|
    {
      rows, more, failed, swept := 0, false, false, 0;
      var n := |streams|;
      if n == 0 {
        return;
      }
      var start := cursor;
      var bound: int := limit;
      if n - start < bound {
        bound := n - start;
      }
      while swept < bound && swept < n - start
        invariant (swept <= bound || swept == 0) && rows == TotalRows(o, swept)
        invariant cursor == start && Swept(start, limit, n, o) == swept + Sweeps(bound, o, swept)
      {
        var s := o(swept);
        if s.Failed? {
          UniqueRemainder(start + swept, 0, start + swept, n);
          cursor := start + swept;
          failed := true;
          return;
        }
        rows := rows + s.rows;
        swept := swept + 1;
        if s.expired {
          break;
        }
      }
      cursor := (start + swept) % n;
      more := swept == bound && start + swept < n;
    }
  }
}
