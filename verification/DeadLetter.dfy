/** Dead-lettering inside the caller's transaction: copy the origin message into
    `<stream>.dlq` within the transaction's copy budget, keep that stream's counters, and
    report one msg.dead. */
module DeadLetter {
  import opened Common

  datatype Row = Row(seqNo: int, size: nat, publishedAt: int)

  datatype Stats = Stats(msgs: int, bytes: int)

  datatype Outcome = Dropped | OriginMissing | Written(seqNo: int, size: nat)

  datatype Ctx = Ctx(stream: string, consumer: string, seqNo: int)

  /** The tables the sink touches. `rows` lists a stream's messages in insertion order,
      `copyPolicy` holds the consumers' dead_policy = dlq, `events` the msg.dead events. */
  datatype Tables = Tables(
    rows: map<string, seq<Row>>, stats: map<string, Stats>, next: map<string, int>,
    copyPolicy: map<(string, string), bool>, events: seq<(Ctx, Outcome)>)

  datatype Budget = Budget(copies: int, bytes: int)

  datatype Limits = Limits(maxCopies: int, maxBytes: int)

  function FreshBudget(l: Limits): Budget {
    Budget(l.maxCopies, l.maxBytes)
  }

  /** As written: the byte limit is looked at only while the remainder is positive. */
  predicate CanCopy(b: Budget, size: nat) {
    b.copies > 0 && !(b.bytes > 0 && size > b.bytes)
  }

  function Take(b: Budget, size: nat): Budget {
    Budget(b.copies - 1, b.bytes - size)
  }

  function DlqName(stream: string): string {
    stream + ".dlq"
  }

  function RowsOf(t: Tables, n: string): seq<Row> {
    if n in t.rows then t.rows[n] else []
  }

  /** The message at a sequence number, if it is still there. */
  function Lookup(rows: seq<Row>, q: int): Option<Row> {
    if rows == [] then None
    else if rows[0].seqNo == q then Some(rows[0])
    else Lookup(rows[1..], q)
  }

  /** max(published_at), NULL for no rows. */
  function Latest(rows: seq<Row>): Option<int> {
    if rows == [] then None
    else
      var last := rows[|rows| - 1].publishedAt;
      match Latest(rows[..|rows| - 1])
      case None => Some(last)
      case Some(m) => Some(if m > last then m else last)
  }

  function Clamp(rows: seq<Row>, now: int): int {
    match Latest(rows)
    case Some(last) => if last > now then last else now
    case None => now
  }

  predicate Copies(t: Tables, d: Ctx) {
    (d.stream, d.consumer) in t.copyPolicy && t.copyPolicy[(d.stream, d.consumer)]
  }

  /** Three inserts, each doing nothing on conflict. */
  function Ensure(t: Tables, n: string): Tables {
    t.(next := if n in t.next then t.next else t.next[n := 1],
       stats := if n in t.stats then t.stats else t.stats[n := Stats(0, 0)])
  }

  function Emit(t: Tables, d: Ctx, out: Outcome): Tables {
    t.(events := t.events + [(d, out)])
  }

  /** The copy proper: allocate, clamp, insert, count. */
  function Copy(t: Tables, n: string, size: nat, now: int): Tables
    requires n in t.next && n in t.stats
  {
    var row := Row(t.next[n], size, Clamp(RowsOf(t, n), now));
    t.(next := t.next[n := t.next[n] + 1],
       rows := t.rows[n := RowsOf(t, n) + [row]],
       stats := t.stats[n := Stats(t.stats[n].msgs + 1, t.stats[n].bytes + size)])
  }

  /** A collision is the primary key refusing the insert; it fails the transaction. */
  datatype Result = Done(t: Tables, b: Budget, out: Outcome) | OverBudget | Collision

  function Dead(t: Tables, b: Budget, d: Ctx, now: int): Result {
    if !Copies(t, d) then Done(Emit(t, d, Dropped), b, Dropped)
    else
      match Lookup(RowsOf(t, d.stream), d.seqNo)
      case None => Done(Emit(t, d, OriginMissing), b, OriginMissing)
      case Some(origin) =>
        if !CanCopy(b, origin.size) then OverBudget
        else
          var n := DlqName(d.stream);
          var t1 := Ensure(t, n);
          var out := Written(t1.next[n], origin.size);
          if Lookup(RowsOf(t1, n), t1.next[n]).Some? then Collision
          else Done(Emit(Copy(t1, n, origin.size, now), d, out), Take(b, origin.size), out)
  }

  // ---- what every call keeps ----------------------------------------------------------

  function Bytes(rows: seq<Row>): nat {
    if rows == [] then 0 else Bytes(rows[..|rows| - 1]) + rows[|rows| - 1].size
  }

  /** Counters equal the rows; a stream without counters has no rows. */
  ghost predicate Counted(t: Tables, n: string) {
    if n in t.stats then t.stats[n] == Stats(|RowsOf(t, n)|, Bytes(RowsOf(t, n))) else RowsOf(t, n) == []
  }

  ghost predicate AllCounted(t: Tables) {
    forall n :: Counted(t, n)
  }

  ghost predicate InTimeOrder(rows: seq<Row>) {
    forall i, j | 0 <= i < j < |rows| :: rows[i].publishedAt <= rows[j].publishedAt
  }

  ghost predicate AllInTimeOrder(t: Tables) {
    forall n :: InTimeOrder(RowsOf(t, n))
  }

  /** Sequence numbers below the counter, so an insert never collides. */
  ghost predicate Numbered(t: Tables, n: string) {
    forall i | 0 <= i < |RowsOf(t, n)| :: n in t.next && RowsOf(t, n)[i].seqNo < t.next[n]
  }

  /** Auto-creation keeps the counters right exactly when the name has a counters row
      already or no leftover messages. */
  lemma EnsureKeepsCountedIff(t: Tables, n: string)
    requires n in t.stats ==> Counted(t, n)
    ensures Counted(Ensure(t, n), n) <==> n in t.stats || RowsOf(t, n) == []
  {
    assert RowsOf(Ensure(t, n), n) == RowsOf(t, n);
  }

  lemma CopyCounts(t: Tables, n: string, size: nat, now: int)
    requires n in t.next && n in t.stats && Counted(t, n)
    ensures Counted(Copy(t, n, size, now), n)
    ensures forall k | k != n :: Counted(t, k) == Counted(Copy(t, n, size, now), k)
  {
    var u := Copy(t, n, size, now);
    var rows := RowsOf(t, n);
    assert RowsOf(u, n)[..|rows|] == rows;
    assert forall k | k != n :: RowsOf(u, k) == RowsOf(t, k);
  }

  lemma DeadKeepsCounted(t: Tables, b: Budget, d: Ctx, now: int)
    requires AllCounted(t) && Dead(t, b, d, now).Done?
    ensures AllCounted(Dead(t, b, d, now).t)
  {
    var u := Dead(t, b, d, now).t;
    var n := DlqName(d.stream);
    var t1 := Ensure(t, n);
    forall k ensures Counted(u, k) {
      assert Counted(t, k) && Counted(t, n);
      if Dead(t, b, d, now).out.Written? {
        var size := Dead(t, b, d, now).out.size;
        assert RowsOf(t1, n) == RowsOf(t, n) && RowsOf(t1, k) == RowsOf(t, k);
        CopyCounts(t1, n, size, now);
        assert RowsOf(u, k) == RowsOf(Copy(t1, n, size, now), k);
      } else {
        assert RowsOf(u, k) == RowsOf(t, k);
      }
    }
  }

  lemma {:induction false} LatestIsMax(rows: seq<Row>, i: nat)
    requires i < |rows|
    ensures Latest(rows).Some? && rows[i].publishedAt <= Latest(rows).value
  {
    var n := |rows| - 1;
    if i < n {
      LatestIsMax(rows[..n], i);
    }
  }

  lemma CopyKeepsTime(rows: seq<Row>, row: Row, now: int)
    requires InTimeOrder(rows) && row.publishedAt == Clamp(rows, now)
    ensures InTimeOrder(rows + [row]) && row.publishedAt >= now
  {
    forall i | 0 <= i < |rows| ensures rows[i].publishedAt <= row.publishedAt {
      LatestIsMax(rows, i);
    }
  }

  /** A clock that steps back never breaks a dead-letter stream's time order. */
  lemma DeadKeepsTime(t: Tables, b: Budget, d: Ctx, now: int)
    requires AllInTimeOrder(t) && Dead(t, b, d, now).Done?
    ensures AllInTimeOrder(Dead(t, b, d, now).t)
  {
    var r := Dead(t, b, d, now);
    var n := DlqName(d.stream);
    forall k ensures InTimeOrder(RowsOf(r.t, k)) {
      assert InTimeOrder(RowsOf(t, k));
      if r.out.Written? && k == n {
        var row := RowsOf(r.t, n)[|RowsOf(t, n)|];
        assert RowsOf(r.t, n) == RowsOf(t, n) + [row];
        CopyKeepsTime(RowsOf(t, n), row, now);
      } else {
        assert RowsOf(r.t, k) == RowsOf(t, k);
      }
    }
  }

  /** The number a copy into `n` would get. */
  function CopyNumber(t: Tables, n: string): int {
    if n in t.next then t.next[n] else 1
  }

  /** A copy within budget collides exactly when a row of the dead-letter stream holds its
      number: never while numbers lie below the counter, and after an auto-creation over
      leftover rows exactly when one of them is number 1. */
  lemma CollidesIff(t: Tables, b: Budget, d: Ctx, now: int)
    requires Copies(t, d) && Lookup(RowsOf(t, d.stream), d.seqNo).Some?
    requires CanCopy(b, Lookup(RowsOf(t, d.stream), d.seqNo).value.size)
    ensures var n := DlqName(d.stream); var rows := RowsOf(t, n);
            && (Dead(t, b, d, now) == Collision <==> exists i :: 0 <= i < |rows| && rows[i].seqNo == CopyNumber(t, n))
            && (Numbered(t, n) ==> Dead(t, b, d, now) != Collision)
  {
    var n := DlqName(d.stream);
    LookupIsFirst(RowsOf(t, n), CopyNumber(t, n));
    assert RowsOf(Ensure(t, n), n) == RowsOf(t, n);
  }

  /** A leftover row number 1 and no counter: the first copy collides. */
  lemma LeftoverCollides(b: Budget, d: Ctx, row: Row, now: int)
    requires b.copies > 0 && row.seqNo == 1
    ensures var n := DlqName(d.stream);
            var t := Tables(map[d.stream := [Row(d.seqNo, 0, 0)], n := [row]], map[], map[],
                            map[(d.stream, d.consumer) := true], []);
            Dead(t, b, d, now) == Collision
  {
    var n := DlqName(d.stream);
    assert |n| != |d.stream|;
    assert Lookup([row], 1) == Some(row);
  }

  /** Row `i` is the first of its stream with the number. */
  ghost predicate Origin(t: Tables, d: Ctx, i: nat) {
    && d.stream in t.rows && i < |t.rows[d.stream]| && t.rows[d.stream][i].seqNo == d.seqNo
    && forall k | 0 <= k < i :: t.rows[d.stream][k].seqNo != d.seqNo
  }

  /** Which way a call goes. Without a policy to copy it drops; without the message it says
      so; and in both cases nothing moves but one event. Otherwise the budget, looked at as
      written, may refuse, a taken number may fail it, and else it writes. */
  lemma OutcomeIff(t: Tables, b: Budget, d: Ctx, now: int)
    ensures var r := Dead(t, b, d, now);
            var copying := (d.stream, d.consumer) in t.copyPolicy && t.copyPolicy[(d.stream, d.consumer)];
            var stored := d.stream in t.rows && exists i: nat :: Origin(t, d, i);
            && (r.Done? && r.out == Dropped <==> !copying)
            && (r.Done? && r.out == OriginMissing <==> copying && !stored)
            && (!copying || !stored ==> r == Done(t.(events := t.events + [(d, r.out)]), b, r.out))
            && (copying && stored ==>
                  forall i: nat | Origin(t, d, i) ::
                    var size := t.rows[d.stream][i].size;
                    && (r == OverBudget <==> b.copies <= 0 || (b.bytes > 0 && size > b.bytes))
                    && (r.Done? ==> r.out.Written? && r.out.size == size && r.b == Budget(b.copies - 1, b.bytes - size)))
  {
    var rows := RowsOf(t, d.stream);
    LookupIsFirst(rows, d.seqNo);
    if Lookup(rows, d.seqNo).Some? {
      var i: nat :| i < |rows| && rows[i] == Lookup(rows, d.seqNo).value && rows[i].seqNo == d.seqNo
                    && forall k | 0 <= k < i :: rows[k].seqNo != d.seqNo;
      assert Origin(t, d, i);
      assert forall k: nat | Origin(t, d, k) :: k == i;
    }
  }

  lemma {:induction false} LookupIsFirst(rows: seq<Row>, q: int)
    ensures Lookup(rows, q).None? ==> forall i | 0 <= i < |rows| :: rows[i].seqNo != q
    ensures Lookup(rows, q).Some? ==>
              exists i :: 0 <= i < |rows| && rows[i] == Lookup(rows, q).value && rows[i].seqNo == q
                          && forall k | 0 <= k < i :: rows[k].seqNo != q
  {
    if rows != [] && rows[0].seqNo != q {
      LookupIsFirst(rows[1..], q);
      if Lookup(rows, q).Some? {
        var i :| 0 <= i < |rows[1..]| && rows[1..][i] == Lookup(rows, q).value && rows[1..][i].seqNo == q
                 && forall k | 0 <= k < i :: rows[1..][k].seqNo != q;
        assert rows[i + 1] == Lookup(rows, q).value;
        assert forall k | 0 < k < i + 1 :: rows[k] == rows[1..][k - 1];
      }
    }
  }

  /** The earliest time that is neither before `now` nor before any of the rows. */
  ghost predicate EarliestAfter(rows: seq<Row>, now: int, at: int) {
    && at >= now && (forall i | 0 <= i < |rows| :: rows[i].publishedAt <= at)
    && (at == now || exists i :: 0 <= i < |rows| && rows[i].publishedAt == at)
  }

  lemma {:induction false} LatestIsAttained(rows: seq<Row>)
    requires rows != []
    ensures Latest(rows).Some? && exists i :: 0 <= i < |rows| && rows[i].publishedAt == Latest(rows).value
  {
    var n := |rows| - 1;
    if n == 0 {
      assert rows[..0] == [];
    } else if Latest(rows) != Some(rows[n].publishedAt) {
      LatestIsAttained(rows[..n]);
      var i :| 0 <= i < n && rows[..n][i].publishedAt == Latest(rows[..n]).value;
      assert rows[i].publishedAt == Latest(rows).value;
    }
  }

  lemma ClampIsEarliest(rows: seq<Row>, now: int)
    ensures EarliestAfter(rows, now, Clamp(rows, now))
  {
    forall i | 0 <= i < |rows| ensures rows[i].publishedAt <= Clamp(rows, now) {
      LatestIsMax(rows, i);
    }
    if rows != [] {
      LatestIsAttained(rows);
    }
  }

  /** A call that does not fail emits exactly one msg.dead; it leaves exactly one copy, of
      the origin's size, under the next number and dated as early as time order allows, if
      and only if the outcome says so; and it touches no other stream's rows. */
  lemma OneEventOneCopy(t: Tables, b: Budget, d: Ctx, now: int)
    requires Dead(t, b, d, now).Done?
    ensures var r := Dead(t, b, d, now); var n := DlqName(d.stream);
            && r.t.events == t.events + [(d, r.out)]
            && (forall k | k != n :: RowsOf(r.t, k) == RowsOf(t, k))
            && (r.out.Written? ==> forall i | 0 <= i < |RowsOf(t, n)| :: RowsOf(t, n)[i].seqNo != r.out.seqNo)
            && (r.out.Written? ==>
                  var origin := Lookup(RowsOf(t, d.stream), d.seqNo);
                  && origin.Some? && r.out.size == origin.value.size
                  && r.out.seqNo == CopyNumber(t, n)
                  && |RowsOf(r.t, n)| == |RowsOf(t, n)| + 1
                  && RowsOf(r.t, n)[..|RowsOf(t, n)|] == RowsOf(t, n)
                  && var copy := RowsOf(r.t, n)[|RowsOf(t, n)|];
                     && copy.seqNo == r.out.seqNo && copy.size == r.out.size
                     && EarliestAfter(RowsOf(t, n), now, copy.publishedAt)
                     && r.t.next == t.next[n := copy.seqNo + 1])
            && (!r.out.Written? ==> RowsOf(r.t, n) == RowsOf(t, n) && r.t.next == t.next && r.b == b)
  {
    LookupIsFirst(RowsOf(t, DlqName(d.stream)), CopyNumber(t, DlqName(d.stream)));
    ClampIsEarliest(RowsOf(t, DlqName(d.stream)), now);
  }

  /** Numbers stay below the counter, so no copy ever collides with an existing row. */
  lemma DeadKeepsNumbered(t: Tables, b: Budget, d: Ctx, now: int, k: string)
    requires Numbered(t, k) && Dead(t, b, d, now).Done?
    ensures Numbered(Dead(t, b, d, now).t, k)
  {
    OneEventOneCopy(t, b, d, now);
    var r := Dead(t, b, d, now);
    if k == DlqName(d.stream) && r.out.Written? {
      var row := RowsOf(r.t, k)[|RowsOf(t, k)|];
      assert RowsOf(r.t, k) == RowsOf(t, k) + [row];
      AppendKeepsNumbered(t, r.t, k, row);
    } else {
      SameKeepsNumbered(t, r.t, k);
    }
  }

  lemma AppendKeepsNumbered(t: Tables, u: Tables, k: string, row: Row)
    requires Numbered(t, k) && RowsOf(u, k) == RowsOf(t, k) + [row]
    requires row.seqNo == CopyNumber(t, k) && k in u.next && u.next[k] == row.seqNo + 1
    ensures Numbered(u, k)
  {
  }

  lemma SameKeepsNumbered(t: Tables, u: Tables, k: string)
    requires Numbered(t, k) && RowsOf(u, k) == RowsOf(t, k)
    requires k in t.next ==> k in u.next && u.next[k] == t.next[k]
    ensures Numbered(u, k)
  {
  }

  // ---- one transaction: a pass over dead rows -------------------------------------------

  /** `failed`: a collision stopped the pass, and the transaction is rolled back. */
  datatype Pass = Pass(t: Tables, b: Budget, deferred: seq<Ctx>, spent: nat, copies: nat, failed: bool)

  function SizeOf(out: Outcome): nat {
    if out.Written? then out.size else 0
  }

  /** The sweeps' loop: a row over budget stays for a later transaction, the rest go on. */
  function RunPass(t: Tables, b: Budget, ds: seq<Ctx>, now: int): Pass
    decreases |ds|
  {
    if ds == [] then Pass(t, b, [], 0, 0, false)
    else
      match Dead(t, b, ds[0], now)
      case OverBudget =>
        var p := RunPass(t, b, ds[1..], now);
        p.(deferred := [ds[0]] + p.deferred)
      case Collision => Pass(t, b, ds, 0, 0, true)
      case Done(t1, b1, out) =>
        var p := RunPass(t1, b1, ds[1..], now);
        p.(spent := p.spent + SizeOf(out), copies := p.copies + if out.Written? then 1 else 0)
  }

  /** The pass meets the rows one after another: each is decided on the tables and the budget
      that the ones before it left, and deferred only if the budget refuses it then. */
  lemma {:induction false} PassSnoc(t: Tables, b: Budget, ds: seq<Ctx>, d: Ctx, now: int)
    ensures var p, q := RunPass(t, b, ds, now), RunPass(t, b, ds + [d], now);
            if p.failed then q.failed && q.t == p.t
            else
              match Dead(p.t, p.b, d, now)
              case OverBudget => q == p.(deferred := p.deferred + [d])
              case Collision => q.failed
              case Done(t1, b1, out) =>
                q == Pass(t1, b1, p.deferred, p.spent + SizeOf(out), p.copies + (if out.Written? then 1 else 0), false)
    decreases |ds|
  {
    if ds == [] {
      assert ds + [d] == [d];
    } else {
      assert (ds + [d])[1..] == ds[1..] + [d];
      match Dead(t, b, ds[0], now)
      case OverBudget => PassSnoc(t, b, ds[1..], d, now);
      case Collision =>
      case Done(t1, b1, _) => PassSnoc(t1, b1, ds[1..], d, now);
    }
  }

  /** A transaction never writes more copies than its budget had. */
  lemma {:induction false} CopiesBounded(t: Tables, b: Budget, ds: seq<Ctx>, now: int)
    requires b.copies >= 0
    ensures var p := RunPass(t, b, ds, now); p.copies <= b.copies && p.b.copies == b.copies - p.copies
    ensures RunPass(t, b, ds, now).b.bytes == b.bytes - RunPass(t, b, ds, now).spent
    decreases |ds|
  {
    if ds != [] {
      match Dead(t, b, ds[0], now)
      case OverBudget => CopiesBounded(t, b, ds[1..], now);
      case Collision =>
      case Done(t1, b1, _) => CopiesBounded(t1, b1, ds[1..], now);
    }
  }

  /** Exactly when one copy honours the byte limit. */
  lemma CanCopyWithinIff(b: Budget, size: nat)
    requires CanCopy(b, size) && b.bytes >= 0
    ensures size <= b.bytes <==> b.bytes > 0 || size == 0
  {
  }

  /** No call of the pass copies a non-empty message once nothing remains. */
  ghost predicate StopsAtZero(t: Tables, b: Budget, ds: seq<Ctx>, now: int)
    decreases |ds|
  {
    ds == [] ||
    match Dead(t, b, ds[0], now)
    case OverBudget => StopsAtZero(t, b, ds[1..], now)
    case Collision => true
    case Done(t1, b1, out) => (b.bytes > 0 || SizeOf(out) == 0) && StopsAtZero(t1, b1, ds[1..], now)
  }

  /** A transaction's copied bytes stay within its budget exactly when it copies nothing
      more after the remainder reached exactly zero. */
  lemma {:induction false} BytesBoundedIff(t: Tables, b: Budget, ds: seq<Ctx>, now: int)
    requires b.bytes >= 0
    ensures RunPass(t, b, ds, now).spent <= b.bytes <==> StopsAtZero(t, b, ds, now)
    decreases |ds|
  {
    if ds != [] {
      match Dead(t, b, ds[0], now)
      case OverBudget => BytesBoundedIff(t, b, ds[1..], now);
      case Collision =>
      case Done(t1, b1, out) =>
        if b1.bytes >= 0 {
          BytesBoundedIff(t1, b1, ds[1..], now);
        }
    }
  }

  /** Past that point the byte limit is off: any further copy the count allows goes
      through, whatever its size. */
  lemma ExhaustedCopiesAnything(b: Budget, size: nat)
    requires b.bytes == 0 && b.copies > 0
    ensures CanCopy(b, size) && Take(b, size).bytes == 0 - size
  {
  }

  // ---- repeated transactions drain ------------------------------------------------------

  /** Every stored message fits a fresh budget. */
  ghost predicate AllFit(t: Tables, l: Limits) {
    l.maxCopies > 0 && forall n, i | 0 <= i < |RowsOf(t, n)| :: CanCopy(FreshBudget(l), RowsOf(t, n)[i].size)
  }

  lemma DeadKeepsFit(t: Tables, b: Budget, d: Ctx, now: int, l: Limits)
    requires AllFit(t, l) && Dead(t, b, d, now).Done?
    ensures AllFit(Dead(t, b, d, now).t, l)
  {
    var r := Dead(t, b, d, now);
    var n := DlqName(d.stream);
    LookupIsFirst(RowsOf(t, d.stream), d.seqNo);
    forall k, i | 0 <= i < |RowsOf(r.t, k)| ensures CanCopy(FreshBudget(l), RowsOf(r.t, k)[i].size) {
      OneEventOneCopy(t, b, d, now);
      if i < |RowsOf(t, k)| {
        assert RowsOf(r.t, k)[i] == RowsOf(t, k)[i];
      }
    }
  }

  ghost predicate AllNumbered(t: Tables) {
    forall n :: Numbered(t, n)
  }

  lemma NeverCollides(t: Tables, b: Budget, d: Ctx, now: int)
    requires AllNumbered(t)
    ensures Dead(t, b, d, now) != Collision
  {
    var n := DlqName(d.stream);
    LookupIsFirst(RowsOf(t, n), CopyNumber(t, n));
    assert Numbered(t, n) && RowsOf(Ensure(t, n), n) == RowsOf(t, n);
  }

  /** A fresh budget always takes the first row. */
  lemma FirstIsTaken(t: Tables, d: Ctx, now: int, l: Limits)
    requires AllFit(t, l) && AllNumbered(t)
    ensures Dead(t, FreshBudget(l), d, now).Done?
  {
    LookupIsFirst(RowsOf(t, d.stream), d.seqNo);
    NeverCollides(t, FreshBudget(l), d, now);
  }

  lemma {:induction false} PassKeeps(t: Tables, b: Budget, ds: seq<Ctx>, now: int, l: Limits)
    requires AllFit(t, l) && AllNumbered(t)
    ensures AllFit(RunPass(t, b, ds, now).t, l) && AllNumbered(RunPass(t, b, ds, now).t)
    ensures !RunPass(t, b, ds, now).failed
    ensures |RunPass(t, b, ds, now).deferred| <= |ds|
    ensures |RunPass(t, b, ds, now).t.events| == |t.events| + |ds| - |RunPass(t, b, ds, now).deferred|
    decreases |ds|
  {
    if ds != [] {
      NeverCollides(t, b, ds[0], now);
      match Dead(t, b, ds[0], now)
      case OverBudget => PassKeeps(t, b, ds[1..], now, l);
      case Done(t1, b1, _) =>
        DeadKeepsFit(t, b, ds[0], now, l);
        forall k ensures Numbered(t1, k) {
          DeadKeepsNumbered(t, b, ds[0], now, k);
        }
        PassKeeps(t1, b1, ds[1..], now, l);
    }
  }

  /** Counters and time order hold after any number of calls. */
  lemma {:induction false} PassKeepsTables(t: Tables, b: Budget, ds: seq<Ctx>, now: int)
    requires AllCounted(t) && AllInTimeOrder(t)
    ensures AllCounted(RunPass(t, b, ds, now).t) && AllInTimeOrder(RunPass(t, b, ds, now).t)
    decreases |ds|
  {
    if ds != [] {
      match Dead(t, b, ds[0], now)
      case OverBudget => PassKeepsTables(t, b, ds[1..], now);
      case Collision =>
      case Done(t1, b1, _) =>
        DeadKeepsCounted(t, b, ds[0], now);
        DeadKeepsTime(t, b, ds[0], now);
        PassKeepsTables(t1, b1, ds[1..], now);
    }
  }

  /** A pass with a fresh budget retires at least one row of a non-empty list. */
  lemma PassShrinks(t: Tables, ds: seq<Ctx>, now: int, l: Limits)
    requires AllFit(t, l) && AllNumbered(t) && ds != []
    ensures |RunPass(t, FreshBudget(l), ds, now).deferred| < |ds|
  {
    FirstIsTaken(t, ds[0], now, l);
    DeadKeepsFit(t, FreshBudget(l), ds[0], now, l);
    var r := Dead(t, FreshBudget(l), ds[0], now);
    forall k ensures Numbered(r.t, k) {
      DeadKeepsNumbered(t, FreshBudget(l), ds[0], now, k);
    }
    PassKeeps(r.t, r.b, ds[1..], now, l);
  }

  /** One fresh transaction after another, each at its own time. */
  function Drain(t: Tables, ds: seq<Ctx>, times: seq<int>, l: Limits): (r: (Tables, seq<Ctx>))
    decreases |times|
  {
    if ds == [] || times == [] then (t, ds)
    else
      var p := RunPass(t, FreshBudget(l), ds, times[0]);
      if p.failed then Drain(t, ds, times[1..], l) else Drain(p.t, p.deferred, times[1..], l)
  }

  /** If every message fits a fresh budget and numbers lie below their counters, as many
      transactions as there are dead rows drain them all, at one msg.dead each. */
  lemma {:induction false} DrainFinishes(t: Tables, ds: seq<Ctx>, times: seq<int>, l: Limits)
    requires AllFit(t, l) && AllNumbered(t) && |times| >= |ds|
    ensures Drain(t, ds, times, l).1 == []
    ensures |Drain(t, ds, times, l).0.events| == |t.events| + |ds|
    ensures AllCounted(t) && AllInTimeOrder(t) ==>
              AllCounted(Drain(t, ds, times, l).0) && AllInTimeOrder(Drain(t, ds, times, l).0)
    decreases |times|
  {
    if ds != [] {
      var p := RunPass(t, FreshBudget(l), ds, times[0]);
      if AllCounted(t) && AllInTimeOrder(t) {
        PassKeepsTables(t, FreshBudget(l), ds, times[0]);
      }
      PassKeeps(t, FreshBudget(l), ds, times[0], l);
      PassShrinks(t, ds, times[0], l);
      DrainFinishes(p.t, p.deferred, times[1..], l);
    }
  }

  // ---- the sink as written ----------------------------------------------------------------

  class DeadBudget {
    var copies: int
    var bytes: int

    ghost function View(): Budget
      reads this
    {
      Budget(copies, bytes)
    }

    constructor (l: Limits)
      ensures View() == FreshBudget(l)
    {
      copies, bytes := l.maxCopies, l.maxBytes;
    }

    method CanTake(size: nat) returns (ok: bool)
      ensures ok == CanCopy(View(), size)
    {
      if copies <= 0 {
        return false;
      }
      if bytes > 0 && size > bytes {
        return false;
      }
      return true;
    }

    method Spend(size: nat)
      modifies this
      ensures View() == Take(old(View()), size)
    {
      copies := copies - 1;
      bytes := bytes - size;
    }
  }

  /** One transaction's sink; `t` is what the transaction sees. */
  class Sink {
    var t: Tables
    const budget: DeadBudget

    constructor (tables: Tables, l: Limits)
      ensures t == tables && fresh(budget) && budget.View() == FreshBudget(l)
    {
      t := tables;
      budget := new DeadBudget(l);
    }

    /** Without an outcome nothing is written: the budget refused, or, if `failed`, the
        insert did and the caller rolls back. */
    method DeadLetter(d: Ctx, now: int) returns (out: Option<Outcome>, failed: bool)
      modifies this, budget
      ensures var r := Dead(old(t), old(budget.View()), d, now);
              if r.Done? then out == Some(r.out) && !failed && t == r.t && budget.View() == r.b
              else out == None && failed == r.Collision? && t == old(t) && budget.View() == old(budget.View())
      ensures var pair := (d.stream, d.consumer);
              out == Some(Dropped) <==> !(pair in old(t).copyPolicy && old(t).copyPolicy[pair])
      ensures out == Some(OriginMissing) ==> forall i | 0 <= i < |RowsOf(t, d.stream)| :: RowsOf(t, d.stream)[i].seqNo != d.seqNo
    {
      if !Copies(t, d) {
        t := Emit(t, d, Dropped);
        return Some(Dropped), false;
      }
      var origin := Lookup(RowsOf(t, d.stream), d.seqNo);
      if origin.None? {
        LookupIsFirst(RowsOf(t, d.stream), d.seqNo);
        t := Emit(t, d, OriginMissing);
        return Some(OriginMissing), false;
      }
      var size := origin.value.size;
      var ok := budget.CanTake(size);
      if !ok {
        return None, false;
      }
      var before := t;
      var n := DlqName(d.stream);
      EnsureStream(n);
      var q := t.next[n];
      t := t.(next := t.next[n := q + 1]);
      var at := Clamp(RowsOf(t, n), now);
      if Lookup(RowsOf(t, n), q).Some? {
        t := before;
        return None, true;
      }
      t := t.(rows := t.rows[n := RowsOf(t, n) + [Row(q, size, at)]]);
      t := t.(stats := t.stats[n := Stats(t.stats[n].msgs + 1, t.stats[n].bytes + size)]);
      budget.Spend(size);
      out, failed := Some(Written(q, size)), false;
      t := Emit(t, d, Written(q, size));
    }

    method EnsureStream(n: string)
      modifies this
      ensures t == Ensure(old(t), n) && n in t.next && n in t.stats
    {
      if n !in t.next {
        t := t.(next := t.next[n := 1]);
      }
      if n !in t.stats {
        t := t.(stats := t.stats[n := Stats(0, 0)]);
      }
    }

    /** The sweep's loop over dead rows: an over-budget row is skipped, a failed insert
        rolls everything back. */
    method RetireAll(ds: seq<Ctx>, now: int) returns (deferred: seq<Ctx>, failed: bool)
      modifies this, budget
      ensures var p := RunPass(old(t), old(budget.View()), ds, now);
              && failed == p.failed
              && (failed ==> t == old(t) && deferred == ds)
              && (!failed ==> t == p.t && budget.View() == p.b && deferred == p.deferred)
    {
      deferred, failed := [], false;
      assert ds[0..] == ds;
      var begun := t;
      ghost var t0, b0 := t, budget.View();
      for i := 0 to |ds|
        invariant var p := RunPass(t0, b0, ds, now); var rest := RunPass(t, budget.View(), ds[i..], now);
                  p.t == rest.t && p.b == rest.b && p.deferred == deferred + rest.deferred && p.failed == rest.failed
        invariant !failed
      {
        assert ds[i..][0] == ds[i] && ds[i..][1..] == ds[i + 1..];
        var out;
        out, failed := DeadLetter(ds[i], now);
        if failed {
          t := begun;
          return ds, true;
        }
        if out.None? {
          deferred := deferred + [ds[i]];
        }
      }
    }
  }
}
