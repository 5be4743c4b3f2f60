/** Stream deletion: one metadata transaction leaves a marker, bounded chunks remove the
    messages, the last chunk clears the marker, and only then may the name come back. */
module Reap {
  import opened Common
  import DeadLetter

  type Name = string

  datatype Message = Message(stream: Name, seqNo: int)

  /** The tables: live streams with their next sequence number, messages, reap markers
      (with the advertised row count) and high-water marks; `driving` holds the names
      whose DeleteStream call is still looping over chunks. */
  datatype Tables = Tables(
    live: map<Name, int>, messages: set<Message>, markers: map<Name, int>, hwm: map<Name, int>, driving: set<Name>)

  const CHUNK_ROWS: nat := 10_000

  datatype Step =
    | Create(name: Name)
    | AutoCreate(name: Name)                     // the dead-letter sink
    | Publish(name: Name)
    | Remove(gone: set<Message>)              // retention, purge, acks: live streams only
    | Delete(name: Name)
    | Chunk(name: Name, victims: set<Message>)   // the DeleteStream loop
    | Abandon(name: Name)                        // that loop gave up
    | Resume(name: Name, victims: set<Message>)  // the janitor, or startup recovery
    | Crash

  function Of(messages: set<Message>, n: Name): set<Message> {
    set m | m in messages && m.stream == n
  }

  function ResumeSeq(t: Tables, n: Name): int {
    if n in t.hwm then t.hwm[n] + 1 else 1
  }

  function CreateStep(t: Tables, n: Name): Tables {
    if n in t.markers || n in t.live then t
    else t.(live := t.live[n := ResumeSeq(t, n)])
  }

  function PublishStep(t: Tables, n: Name): Tables {
    if n !in t.live then t
    else t.(live := t.live[n := t.live[n] + 1], messages := t.messages + {Message(n, t.live[n])})
  }

  function DeleteStep(t: Tables, n: Name): Tables {
    if n !in t.live then t
    else t.(live := t.live - {n},
            hwm := t.hwm[n := t.live[n] - 1],
            markers := t.markers[n := |Of(t.messages, n)|],
            driving := t.driving + {n})
  }

  /** What one chunk may take: as many rows of the name as there are, up to the bound. */
  ghost predicate IsChunk(t: Tables, n: Name, victims: set<Message>) {
    && victims <= Of(t.messages, n)
    && |victims| == if |Of(t.messages, n)| < CHUNK_ROWS then |Of(t.messages, n)| else CHUNK_ROWS
  }

  /** A chunk as written: it looks neither at the marker nor at the stream row. */
  function ChunkStep(t: Tables, n: Name, victims: set<Message>): Tables {
    t.(messages := t.messages - victims, markers := if |victims| < CHUNK_ROWS then t.markers - {n} else t.markers)
  }

  /** Names the dead-letter sink creates on demand. */
  predicate IsDlq(n: Name) {
    |n| >= 4 && n[|n| - 4..] == ".dlq"
  }

  /** They are exactly the names it derives from a stream's. */
  lemma DlqNamesAreDerived(n: Name)
    ensures IsDlq(n) <==> exists origin :: n == DeadLetter.DlqName(origin)
  {
    if IsDlq(n) {
      assert n == DeadLetter.DlqName(n[..|n| - 4]);
    }
    if origin :| n == DeadLetter.DlqName(origin) {
      assert n[|n| - 4..] == ".dlq";
    }
  }

  /** The sink's creation as written: it looks neither at the marker nor at the mark. */
  function AutoCreateStep(t: Tables, n: Name): Tables {
    if n in t.live then t else t.(live := t.live[n := 1])
  }

  ghost predicate Enabled(t: Tables, e: Step) {
    match e
    case Create(_) => true
    case AutoCreate(n) => IsDlq(n)
    case Publish(_) => true
    case Remove(gone) => forall m | m in gone :: m.stream in t.live
    case Delete(_) => true
    case Chunk(n, victims) => n in t.driving && IsChunk(t, n, victims)
    case Abandon(_) => true
    case Resume(n, victims) => n in t.markers && IsChunk(t, n, victims)
    case Crash => true
  }

  function Next(t: Tables, e: Step): Tables {
    match e
    case Create(n) => CreateStep(t, n)
    case AutoCreate(n) => AutoCreateStep(t, n)
    case Publish(n) => PublishStep(t, n)
    case Remove(gone) => t.(messages := t.messages - gone)
    case Delete(n) => DeleteStep(t, n)
    case Chunk(n, victims) =>
      var u := ChunkStep(t, n, victims);
      if |victims| < CHUNK_ROWS then u.(driving := u.driving - {n}) else u
    case Abandon(n) => t.(driving := t.driving - {n})
    case Resume(n, victims) => ChunkStep(t, n, victims)
    case Crash => t.(driving := {})
  }

  function Initial(): Tables {
    Tables(map[], {}, map[], map[], {})
  }

  ghost predicate Follows(ts: seq<Tables>, es: seq<Step>, i: nat)
    requires i < |es| && |ts| == |es| + 1
  {
    Enabled(ts[i], es[i]) && ts[i + 1] == Next(ts[i], es[i])
  }

  ghost predicate Run(ts: seq<Tables>, es: seq<Step>) {
    && |ts| == |es| + 1
    && ts[0] == Initial()
    && forall i | 0 <= i < |es| :: Follows(ts, es, i)
  }

  /** What the code does not guard for a name: the background resume takes it while its
      own call is still looping, or the sink creates it in the middle of a reap. The
      latter cannot happen to a name that is not a dead-letter name. */
  ghost predicate Orderly(t: Tables, e: Step, n: Name) {
    && (e.Resume? && e.name == n ==> n !in t.driving)
    && (e.AutoCreate? && e.name == n ==> n !in t.markers)
  }

  ghost predicate OrderlyRun(ts: seq<Tables>, es: seq<Step>, n: Name) {
    && Run(ts, es)
    && forall i | 0 <= i < |es| :: Orderly(ts[i], es[i], n)
  }

  // ---- the invariant, name by name -------------------------------------------------

  /** The last sequence number the name has handed out, in this life or an earlier one. */
  function High(t: Tables, n: Name): int {
    if n in t.live then t.live[n] - 1 else if n in t.hwm then t.hwm[n] else 0
  }

  /** A marker never coexists with a live row, and a looping call has its marker. */
  ghost predicate Exclusive(t: Tables, n: Name) {
    (n in t.markers ==> n !in t.live) && (n in t.driving ==> n in t.markers)
  }

  /** The name's messages belong to a live stream or to one being reaped. */
  ghost predicate NoOrphans(t: Tables, n: Name) {
    forall m | m in t.messages && m.stream == n :: n in t.live || n in t.markers
  }

  /** Every message of the name lies at or below its last number. */
  ghost predicate Numbered(t: Tables, n: Name) {
    forall m | m in t.messages && m.stream == n :: m.seqNo <= High(t, n)
  }

  ghost predicate Inv(t: Tables, n: Name) {
    Exclusive(t, n) && NoOrphans(t, n) && Numbered(t, n)
  }

  /** A short chunk took everything the name had. */
  lemma ShortChunkIsLast(t: Tables, n: Name, victims: set<Message>)
    requires IsChunk(t, n, victims) && |victims| < CHUNK_ROWS
    ensures victims == Of(t.messages, n)
    ensures Of(ChunkStep(t, n, victims).messages, n) == {}
  {
    SubsetSize(victims, Of(t.messages, n));
  }

  /** A full chunk makes progress, and leaves exactly what it did not take. */
  lemma ChunkCounts(t: Tables, n: Name, victims: set<Message>)
    requires IsChunk(t, n, victims)
    ensures |Of(ChunkStep(t, n, victims).messages, n)| == |Of(t.messages, n)| - |victims|
  {
    assert Of(t.messages - victims, n) == Of(t.messages, n) - victims;
  }

  /** A chunk of any name keeps this one's messages accounted for. */
  lemma ChunkKeeps(t: Tables, k: Name, victims: set<Message>, n: Name)
    requires Inv(t, n) && IsChunk(t, k, victims)
    ensures NoOrphans(ChunkStep(t, k, victims), n) && Numbered(ChunkStep(t, k, victims), n)
  {
    var u := ChunkStep(t, k, victims);
    if |victims| < CHUNK_ROWS {
      ShortChunkIsLast(t, k, victims);
      forall m | m in u.messages && m.stream == n ensures n in u.live || n in u.markers {
        assert n == k ==> m in Of(u.messages, k);
      }
    }
  }

  lemma StepKeeps(t: Tables, e: Step, n: Name)
    requires Inv(t, n) && Enabled(t, e) && Orderly(t, e, n)
    ensures Inv(Next(t, e), n)
  {
    match e
    case Chunk(k, victims) => ChunkKeeps(t, k, victims, n);
    case Resume(k, victims) => ChunkKeeps(t, k, victims, n);
    case _ =>
  }

  lemma {:induction false} RunKeeps(ts: seq<Tables>, es: seq<Step>, n: Name, i: nat)
    requires OrderlyRun(ts, es, n) && i <= |es|
    ensures Inv(ts[i], n)
  {
    if i > 0 {
      RunKeeps(ts, es, n, i - 1);
      assert Follows(ts, es, i - 1);
      StepKeeps(ts[i - 1], es[i - 1], n);
    }
  }

  /** Every run is orderly for a name that is not a dead-letter name, as long as each of
      its reaps has one driver. */
  lemma UserNamesAreOrderly(ts: seq<Tables>, es: seq<Step>, n: Name)
    requires Run(ts, es) && !IsDlq(n)
    requires forall i | 0 <= i < |es| && es[i].Resume? && es[i].name == n :: n !in ts[i].driving
    ensures OrderlyRun(ts, es, n)
  {
    forall i | 0 <= i < |es| ensures Orderly(ts[i], es[i], n) {
      assert Follows(ts, es, i);
    }
  }

  // ---- what the protocol promises over whole runs -----------------------------------

  predicate Reaps(e: Step) {
    e.Chunk? || e.Resume?
  }

  /** In an orderly run, crashes anywhere: the name's marker never stands beside a live
      row, no chunk removes its messages while it is live, and the step that clears its
      marker leaves none of them. */
  lemma ReapIsSafe(ts: seq<Tables>, es: seq<Step>, n: Name, i: nat)
    requires OrderlyRun(ts, es, n) && i < |es|
    ensures n in ts[i].markers ==> n !in ts[i].live
    ensures Reaps(es[i]) && n in ts[i].live ==> Of(ts[i + 1].messages, n) == Of(ts[i].messages, n)
    ensures n in ts[i].markers && n !in ts[i + 1].markers ==> Of(ts[i + 1].messages, n) == {}
  {
    RunKeeps(ts, es, n, i);
    assert Follows(ts, es, i);
    var t, e := ts[i], es[i];
    if Reaps(e) && |e.victims| < CHUNK_ROWS {
      ShortChunkIsLast(t, e.name, e.victims);
    }
  }

  /** A creation by the sink moves a name's last number back exactly when the name is not
      live and its high-water mark is above zero. */
  lemma AutoCreateKeepsHighIff(t: Tables, n: Name)
    ensures High(t, n) <= High(AutoCreateStep(t, n), n) <==> n in t.live || n !in t.hwm || t.hwm[n] <= 0
  {
  }

  /** And it puts a live row beside a marker exactly when it creates a marked name. */
  lemma AutoCreateKeepsExclusiveIff(t: Tables, n: Name)
    requires Inv(t, n)
    ensures Exclusive(AutoCreateStep(t, n), n) <==> n !in t.markers
  {
  }

  /** No other step, chunk, crash or recreation ever moves it back. */
  lemma HighNeverFalls(t: Tables, e: Step, n: Name)
    requires e.AutoCreate? && e.name == n ==> Resumes(t, n)
    ensures High(t, n) <= High(Next(t, e), n)
  {
  }

  /** The sink's creation of `n` would not restart numbers already handed out. */
  ghost predicate Resumes(t: Tables, n: Name) {
    n in t.live || n !in t.hwm || t.hwm[n] <= 0
  }

  /** No creation of `n` by the sink restarts its numbers; of a name that is not a
      dead-letter name this is true of every run. */
  ghost predicate NeverRestarts(ts: seq<Tables>, es: seq<Step>, n: Name)
    requires Run(ts, es)
  {
    forall i | 0 <= i < |es| && es[i] == AutoCreate(n) :: Resumes(ts[i], n)
  }

  lemma {:induction false} HighChain(ts: seq<Tables>, es: seq<Step>, n: Name, i: nat, j: nat)
    requires Run(ts, es) && i <= j <= |es| && NeverRestarts(ts, es, n)
    ensures High(ts[i], n) <= High(ts[j], n)
    decreases j - i
  {
    if i < j {
      assert Follows(ts, es, i);
      HighNeverFalls(ts[i], es[i], n);
      HighChain(ts, es, n, i + 1, j);
    }
  }

  /** Over any run, deletions and recreations included, a name whose numbers the sink
      never restarts hands out none of them twice: later publishes get larger ones. */
  lemma NeverReused(ts: seq<Tables>, es: seq<Step>, n: Name, i: nat, j: nat)
    requires Run(ts, es) && NeverRestarts(ts, es, n)
    requires i < j < |es| && es[i] == Publish(n) && es[j] == Publish(n)
    requires n in ts[i].live && n in ts[j].live
    ensures ts[i].live[n] < ts[j].live[n]
  {
    HighChain(ts, es, n, i + 1, j);
    assert Follows(ts, es, i);
    assert High(ts[i + 1], n) == ts[i].live[n];
  }

  lemma UserNamesNeverRestart(ts: seq<Tables>, es: seq<Step>, n: Name)
    requires Run(ts, es) && !IsDlq(n)
    ensures NeverRestarts(ts, es, n)
  {
    forall i | 0 <= i < |es| ensures es[i] != AutoCreate(n) {
      assert Follows(ts, es, i);
    }
  }

  /** A recreated stream starts above every message the name ever held. */
  lemma RecreatedAbove(ts: seq<Tables>, es: seq<Step>, n: Name, k: nat, i: nat, m: Message)
    requires OrderlyRun(ts, es, n) && NeverRestarts(ts, es, n) && k <= i < |es| && es[i] == Create(n)
    requires n !in ts[i].live && n in ts[i + 1].live
    requires m in ts[k].messages && m.stream == n
    ensures m.seqNo < ts[i + 1].live[n]
  {
    RunKeeps(ts, es, n, k);
    HighChain(ts, es, n, k, i + 1);
  }

  // ---- the tables' laws --------------------------------------------------------------

  /** A step that takes message `m`. */
  predicate Takes(e: Step, m: Message) {
    (e.Remove? && m in e.gone) || ((e.Chunk? || e.Resume?) && m in e.victims)
  }

  /** A step stores exactly the next number of a live name it publishes to, and removes
      exactly what it names. */
  lemma MessageStep(t: Tables, e: Step, m: Message)
    ensures m in Next(t, e).messages <==>
            (m in t.messages && !Takes(e, m))
            || (e == Publish(m.stream) && m.stream in t.live && m.seqNo == High(t, m.stream) + 1)
  {
  }

  /** Over any run a message stays until a removal or a chunk of its own name takes it. */
  lemma {:induction false} StoredUntilTaken(ts: seq<Tables>, es: seq<Step>, i: nat, k: nat, m: Message)
    requires Run(ts, es) && i <= k <= |es| && m in ts[i].messages && m !in ts[k].messages
    ensures exists j :: i <= j < k && m in ts[j].messages && Takes(es[j], m)
                        && (es[j].Remove? ==> m.stream in ts[j].live)
                        && (!es[j].Remove? ==> es[j].name == m.stream)
    decreases k
  {
    if m in ts[k - 1].messages {
      assert Follows(ts, es, k - 1);
      MessageStep(ts[k - 1], es[k - 1], m);
    } else {
      StoredUntilTaken(ts, es, i, k - 1, m);
    }
  }

  /** How many messages the name was given so far. */
  ghost function Accepted(ts: seq<Tables>, es: seq<Step>, n: Name, i: nat): nat
    requires i <= |es| < |ts|
  {
    if i == 0 then 0
    else Accepted(ts, es, n, i - 1) + if es[i - 1] == Publish(n) && n in ts[i - 1].live then 1 else 0
  }

  lemma HighStep(t: Tables, e: Step, n: Name)
    requires (e == AutoCreate(n) ==> Resumes(t, n)) && High(t, n) >= 0
    ensures High(Next(t, e), n) == High(t, n) + if e == Publish(n) && n in t.live then 1 else 0
  {
  }

  /** Over any run in which the sink restarts none of its numbers, a name's last number is
      how many messages it was ever given: numbers are handed out without gaps, deletions and
      recreations included. */
  lemma {:induction false} NumbersHaveNoGaps(ts: seq<Tables>, es: seq<Step>, n: Name, i: nat)
    requires Run(ts, es) && i <= |es| && NeverRestarts(ts, es, n)
    ensures High(ts[i], n) == Accepted(ts, es, n, i)
  {
    if i > 0 {
      NumbersHaveNoGaps(ts, es, n, i - 1);
      assert Follows(ts, es, i - 1);
      HighStep(ts[i - 1], es[i - 1], n);
    }
  }

  /** A chunk that came up short. */
  predicate Clears(e: Step, n: Name) {
    Reaps(e) && e.name == n && |e.victims| < CHUNK_ROWS
  }

  lemma MarkerStep(t: Tables, e: Step, n: Name)
    ensures var u := Next(t, e);
            && (n in u.markers <==> (e == Delete(n) && n in t.live) || (n in t.markers && !Clears(e, n)))
            && (n in u.markers ==>
                  u.markers[n] == if e == Delete(n) && n in t.live then |Of(t.messages, n)| else t.markers[n])
            && (n in u.driving <==>
                  || (e == Delete(n) && n in t.live)
                  || (n in t.driving && e != Abandon(n) && e != Crash && !(e.Chunk? && Clears(e, n))))
            && (n in u.live <==>
                  (n in t.live && e != Delete(n)) || e == AutoCreate(n) || (e == Create(n) && n !in t.markers))
  {
  }

  /** Step j deleted the name, and no chunk of it has come up short since. */
  ghost predicate MarkedAt(ts: seq<Tables>, es: seq<Step>, n: Name, j: nat, i: nat)
    requires i <= |es| < |ts|
  {
    && j < i && es[j] == Delete(n) && n in ts[j].live
    && forall k | j < k < i :: !Clears(es[k], n) && !(es[k] == Delete(n) && n in ts[k].live)
  }

  /** Over any run a marker stands exactly from a deletion to the first short chunk after it,
      and advertises how many messages the stream had when it was deleted. */
  lemma {:induction false} MarkerIff(ts: seq<Tables>, es: seq<Step>, n: Name, i: nat)
    requires Run(ts, es) && i <= |es|
    ensures n in ts[i].markers <==> exists j: nat :: MarkedAt(ts, es, n, j, i)
    ensures forall j: nat | MarkedAt(ts, es, n, j, i) :: n in ts[i].markers && ts[i].markers[n] == |Of(ts[j].messages, n)|
  {
    if i > 0 {
      var k := i - 1;
      MarkerIff(ts, es, n, k);
      assert Follows(ts, es, k);
      MarkerStep(ts[k], es[k], n);
      if es[k] == Delete(n) && n in ts[k].live {
        assert MarkedAt(ts, es, n, k, i);
      } else if !Clears(es[k], n) {
        if j: nat :| MarkedAt(ts, es, n, j, k) {
          assert MarkedAt(ts, es, n, j, i);
        }
        assert forall j: nat | MarkedAt(ts, es, n, j, i) :: MarkedAt(ts, es, n, j, k);
      }
    }
  }

  // ---- runs that show the limits -----------------------------------------------------

  /** A run goes on with any enabled step. */
  lemma Extend(ts: seq<Tables>, es: seq<Step>, e: Step, u: Tables) returns (ts': seq<Tables>, es': seq<Step>)
    requires Run(ts, es) && Enabled(ts[|es|], e) && u == Next(ts[|es|], e)
    ensures es' == es + [e] && ts' == ts + [u] && Run(ts', es') && ts'[|es'|] == u
  {
    ts', es' := ts + [u], es + [e];
    forall i | 0 <= i < |es'| ensures Follows(ts', es', i) {
      if i < |es| {
        assert Follows(ts, es, i);
        assert ts'[i] == ts[i] && es'[i] == es[i] && ts'[i + 1] == ts[i + 1];
      }
    }
  }

  /** A dead-letter stream that is deleted, fully reaped and created again by the sink
      hands out number 1 a second time: one driver, no crash. */
  lemma SinkReusesNumbers(n: Name) returns (ts: seq<Tables>, es: seq<Step>, i: nat, j: nat)
    requires IsDlq(n)
    ensures OrderlyRun(ts, es, n) && i < j < |es| && es[i] == Publish(n) && es[j] == Publish(n)
    ensures n in ts[i].live && n in ts[j].live && ts[i].live[n] == ts[j].live[n]
  {
    var m := Message(n, 1);
    var t0 := Initial();
    var t1 := t0.(live := map[n := 1]);
    var t2 := t0.(live := map[n := 2], messages := {m});
    var t3 := t0.(messages := {m}, hwm := map[n := 1], markers := map[n := 1], driving := {n});
    assert Of(t2.messages, n) == {m};
    assert Of(t3.messages, n) == {m};
    var t4 := t0.(hwm := map[n := 1]);
    var t5 := t4.(live := map[n := 1]);
    ts, es := [t0], [];
    ts, es := Extend(ts, es, AutoCreate(n), t1);
    ts, es := Extend(ts, es, Publish(n), t2);
    ts, es := Extend(ts, es, Delete(n), t3);
    ts, es := Extend(ts, es, Chunk(n, {m}), t4);
    ts, es := Extend(ts, es, AutoCreate(n), t5);
    ts, es := Extend(ts, es, Publish(n), Next(t5, Publish(n)));
    i, j := 1, 5;
  }

  /** Exactly when a looping call's chunk spares every live stream. */
  lemma ChunkSparesLiveIff(t: Tables, n: Name, victims: set<Message>)
    requires Enabled(t, Chunk(n, victims))
    ensures (forall m | m in t.messages && m !in Next(t, Chunk(n, victims)).messages :: m.stream !in t.live)
       <==> (n !in t.live || Of(t.messages, n) == {})
  {
    if Of(t.messages, n) != {} {
      if victims == {} {
        assert false;
      }
      var m := Member(victims);
      assert m in t.messages && m !in Next(t, Chunk(n, victims)).messages;
    }
  }

  /** The janitor's resume breaks the exclusion exactly when it finishes a reap whose own
      call is still looping. */
  lemma ResumeKeepsExclusiveIff(t: Tables, n: Name, victims: set<Message>)
    requires Inv(t, n) && Enabled(t, Resume(n, victims))
    ensures Exclusive(Next(t, Resume(n, victims)), n) <==> !(n in t.driving && |Of(t.messages, n)| < CHUNK_ROWS)
  {
  }

  /** With its marker gone a name comes back and accepts a message; a call still looping
      on its earlier life takes that message in its next chunk. */
  lemma LooperTakesNewcomer(t: Tables, n: Name)
    requires n !in t.live && n !in t.markers && n in t.driving && Of(t.messages, n) == {}
    ensures var u := Next(Next(t, Create(n)), Publish(n));
            var m := Message(n, ResumeSeq(t, n));
            && m !in t.messages && m in u.messages && n in u.live
            && Enabled(u, Chunk(n, {m}))
            && m !in Next(u, Chunk(n, {m})).messages && n in Next(u, Chunk(n, {m})).live
  {
    var m := Message(n, ResumeSeq(t, n));
    var u := Next(Next(t, Create(n)), Publish(n));
    assert m !in Of(t.messages, n);
    assert Of(u.messages, n) == {m};
  }

  /** From any such state the name can come back, accept a message, and lose it to the
      first call's next chunk. */
  lemma TwoDriversLoseAMessage(t: Tables, n: Name) returns (all: set<Message>)
    requires Inv(t, n) && n in t.driving && |Of(t.messages, n)| < CHUNK_ROWS
    ensures Enabled(t, Resume(n, all))
    ensures var u := Next(Next(Next(t, Resume(n, all)), Create(n)), Publish(n));
            exists m: Message :: m in u.messages && m.stream in u.live
              && Enabled(u, Chunk(n, {m})) && m !in Next(u, Chunk(n, {m})).messages
  {
    all := Of(t.messages, n);
    var t1 := Next(t, Resume(n, all));
    assert Of(t1.messages, n) == {};
    LooperTakesNewcomer(t1, n);
  }

  /** Such states are reached: a stream created, then deleted. */
  lemma TwoDriversReachable(n: Name) returns (ts: seq<Tables>, es: seq<Step>)
    ensures OrderlyRun(ts, es, n) && n in ts[|es|].driving && |Of(ts[|es|].messages, n)| < CHUNK_ROWS
  {
    var t0 := Initial();
    var t1 := Next(t0, Create(n));
    var t2 := Next(t1, Delete(n));
    ts, es := [t0], [];
    ts, es := Extend(ts, es, Create(n), t1);
    ts, es := Extend(ts, es, Delete(n), t2);
    assert Of(t2.messages, n) == {};
  }

  /** A resume's `pending` says whether the marker it worked on still stands. It is right
      about all markers exactly when that is so or no other name was marked. */
  lemma PendingCoversAllIff(t: Tables, n: Name, victims: set<Message>)
    requires Enabled(t, Resume(n, victims))
    ensures var u := Next(t, Resume(n, victims)); var pending := n in u.markers;
            (pending <==> u.markers != map[]) <==> pending || t.markers.Keys == {n}
  {
    var u := Next(t, Resume(n, victims));
    if n !in u.markers {
      assert u.markers.Keys == t.markers.Keys - {n};
      assert u.markers == map[] <==> u.markers.Keys == {};
    }
  }

  /** Two streams created and deleted, and their drivers gone. */
  function TwoMarked(a: Name, b: Name): Tables {
    Initial().(hwm := map[a := 0, b := 0], markers := map[a := 0, b := 0])
  }

  lemma TwoMarkedReached(a: Name, b: Name) returns (ts: seq<Tables>, es: seq<Step>)
    requires a != b
    ensures Run(ts, es) && ts[|es|] == TwoMarked(a, b)
  {
    var t0 := Initial();
    var t1 := t0.(live := map[a := 1]);
    var t2 := t0.(live := map[a := 1, b := 1]);
    var t3 := t0.(live := map[b := 1], hwm := map[a := 0], markers := map[a := 0], driving := {a});
    var t4 := TwoMarked(a, b).(driving := {a, b});
    assert Of({}, a) == {} && Of({}, b) == {};
    ts, es := [t0], [];
    ts, es := Extend(ts, es, Create(a), t1);
    ts, es := Extend(ts, es, Create(b), t2);
    ts, es := Extend(ts, es, Delete(a), t3);
    ts, es := Extend(ts, es, Delete(b), t4);
    ts, es := Extend(ts, es, Crash, TwoMarked(a, b));
  }

  /** Two deleted streams: the resume that finishes the first in order reports nothing
      pending while the other's marker stands. */
  lemma PendingMissesOther(a: Name, b: Name) returns (ts: seq<Tables>, es: seq<Step>)
    requires a != b && AtMost(a, b)
    ensures Run(ts, es) && es != [] && es[|es| - 1] == Resume(a, {}) && IsLeast(a, ts[|es| - 1].markers.Keys)
    ensures a !in ts[|es|].markers && b in ts[|es|].markers
  {
    ts, es := TwoMarkedReached(a, b);
    var t := TwoMarked(a, b);
    AtMostTotal(a, a);
    assert Of(t.messages, a) == {};
    ts, es := Extend(ts, es, Resume(a, {}), Next(t, Resume(a, {})));
  }

  // ---- the commands as written --------------------------------------------------------

  datatype CreateOutcome = Created(next: int) | Existed | ReapInProgress(remaining: int)

  /** A SELECT with a LIMIT and no order: any rows, as many as there are up to the limit. */
  method SelectRows(rows: set<Message>, limit: nat) returns (taken: set<Message>)
    ensures taken <= rows && |taken| == if |rows| < limit then |rows| else limit
  {
    taken := {};
    var pool := rows;
    while |taken| < limit && pool != {}
      invariant pool + taken == rows && pool !! taken && |taken| <= limit
      decreases |pool|
    {
      ghost var some := Member(pool);
      var m :| m in pool;
      pool, taken := pool - {m}, taken + {m};
    }
    assert |rows| == |pool| + |taken|;
  }

  /** Bytewise order of names. */
  predicate AtMost(a: Name, b: Name) {
    if a == [] then true
    else if b == [] then false
    else if a[0] != b[0] then a[0] < b[0]
    else AtMost(a[1..], b[1..])
  }

  ghost predicate IsLeast(n: Name, keys: set<Name>) {
    n in keys && forall k | k in keys :: AtMost(n, k)
  }

  lemma {:induction false} AtMostTotal(a: Name, b: Name)
    ensures AtMost(a, b) || AtMost(b, a)
    ensures AtMost(a, a)
  {
    if a != [] {
      AtMostTotal(a[1..], if b == [] then [] else b[1..]);
    }
  }

  lemma {:induction false} AtMostTrans(a: Name, b: Name, c: Name)
    requires AtMost(a, b) && AtMost(b, c)
    ensures AtMost(a, c)
  {
    if a != [] && a[0] == b[0] == c[0] {
      AtMostTrans(a[1..], b[1..], c[1..]);
    }
  }

  /** ORDER BY k ASC LIMIT 1. */
  method LeastName(keys: set<Name>) returns (n: Name)
    requires keys != {}
    ensures IsLeast(n, keys)
  {
    ghost var some := Member(keys);
    n :| n in keys;
    AtMostTotal(n, n);
    var pool := keys - {n};
    while pool != {}
      invariant pool <= keys && IsLeast(n, keys - pool)
      decreases |pool|
    {
      ghost var other := Member(pool);
      var k :| k in pool;
      AtMostTotal(n, k);
      AtMostTotal(k, k);
      if !AtMost(n, k) {
        forall x | x in keys - pool ensures AtMost(k, x) {
          AtMostTrans(k, n, x);
        }
        n := k;
      }
      pool := pool - {k};
    }
    assert keys - pool == keys;
  }

  method ListNames(keys: set<Name>) returns (names: seq<Name>)
    ensures (set n | n in names) == keys
  {
    names := [];
    var pool := keys;
    while pool != {}
      invariant pool + (set n | n in names) == keys
      decreases |pool|
    {
      ghost var some := Member(pool);
      var n :| n in pool;
      pool, names := pool - {n}, names + [n];
    }
  }

  class Store {
    var live: map<Name, int>
    var messages: set<Message>
    var markers: map<Name, int>
    var hwm: map<Name, int>
    ghost var driving: set<Name>

    ghost function View(): Tables
      reads this
    {
      Tables(live, messages, markers, hwm, driving)
    }

    method CreateStream(n: Name) returns (out: CreateOutcome)
      modifies this
      ensures View() == Next(old(View()), Create(n))
      ensures out.Created? <==> n !in old(live) && n !in old(markers)
      ensures out.Created? ==> n in live && live[n] == out.next
      ensures out.ReapInProgress? <==> n in old(markers)
      ensures out.ReapInProgress? ==> out.remaining == old(markers)[n]
    {
      if n in markers {
        return ReapInProgress(markers[n]);
      }
      if n in live {
        return Existed;
      }
      var next := 1;
      if n in hwm {
        next := hwm[n] + 1;
      }
      live := live[n := next];
      return Created(next);
    }

    /** The metadata transaction; false is the not-found error. */
    method DeleteMeta(n: Name) returns (ok: bool)
      modifies this
      ensures ok <==> n in old(live)
      ensures View() == Next(old(View()), Delete(n))
    {
      if n !in live {
        return false;
      }
      var count := |Of(messages, n)|;
      var next := live[n];
      hwm := hwm[n := next - 1];
      markers := markers[n := count];
      live := live - {n};
      driving := driving + {n};
      return true;
    }

    /** Deletes up to CHUNK_ROWS rows, whichever come first; `victims` names them. */
    method ReapChunk(n: Name) returns (removed: nat, cleared: bool, ghost victims: set<Message>)
      modifies this
      ensures IsChunk(old(View()), n, victims)
      ensures View() == ChunkStep(old(View()), n, victims)
      ensures removed == |victims| && cleared == (removed < CHUNK_ROWS)
    {
      var taken := SelectRows(Of(messages, n), CHUNK_ROWS);
      victims := taken;
      removed := |taken|;
      messages := messages - taken;
      cleared := removed < CHUNK_ROWS;
      if cleared {
        markers := markers - {n};
      }
    }

    /** The whole call, when nothing interleaves: the name is gone, its messages are gone,
        its mark is kept and nothing else moved. */
    method DeleteStream(n: Name, confirm: Name) returns (ok: bool)
      modifies this
      ensures ok <==> confirm == n && n in old(live)
      ensures !ok ==> View() == old(View())
      ensures ok ==> live == old(live) - {n} && hwm == old(hwm)[n := old(live)[n] - 1]
                     && markers == old(markers) - {n} && driving == old(driving) - {n}
                     && messages == old(messages) - Of(old(messages), n)
    {
      if confirm != n {
        return false;
      }
      ok := DeleteMeta(n);
      if !ok {
        return;
      }
      ghost var all := Of(messages, n);
      while true
        invariant live == old(live) - {n} && hwm == old(hwm)[n := old(live)[n] - 1]
        invariant n in markers && markers - {n} == old(markers) - {n}
        invariant driving == old(driving) + {n}
        invariant messages <= old(messages) && messages - Of(messages, n) == old(messages) - all
        decreases |Of(messages, n)|
      {
        ghost var before := View();
        var removed, cleared, victims := ReapChunk(n);
        ChunkCounts(before, n, victims);
        if cleared || removed == 0 {
          ShortChunkIsLast(before, n, victims);
          driving := driving - {n};
          break;
        }
      }
    }

    /** One chunk of the least marked name; pending says that its marker still stands. */
    method ReapResume() returns (removed: nat, pending: bool)
      modifies this
      ensures old(markers) == map[] ==> removed == 0 && !pending && View() == old(View())
      ensures old(markers) != map[] ==>
                exists n, victims :: IsLeast(n, old(markers).Keys) && Enabled(old(View()), Resume(n, victims))
                  && View() == Next(old(View()), Resume(n, victims))
                  && removed == |victims| && pending == (n in markers)
    {
      if markers == map[] {
        return 0, false;
      }
      ghost var before := View();
      assert markers.Keys != {};
      var n := LeastName(markers.Keys);
      var cleared;
      ghost var victims;
      removed, cleared, victims := ReapChunk(n);
      pending := !cleared;
      assert Enabled(before, Resume(n, victims)) && View() == Next(before, Resume(n, victims));
    }

    /** Startup recovery: every marker's messages and the marker itself are gone. */
    method FinishInterruptedReaps() returns (names: seq<Name>)
      modifies this
      ensures live == old(live) && hwm == old(hwm) && driving == old(driving)
      ensures markers == map[] && (set n | n in names) == old(markers).Keys
      ensures messages == set m | m in old(messages) && m.stream !in old(markers)
    {
      names := ListNames(markers.Keys);
      var i := 0;
      while i < |names|
        invariant 0 <= i <= |names|
        invariant live == old(live) && hwm == old(hwm) && driving == old(driving)
        invariant forall n :: n in markers <==> n in old(markers) && n !in names[..i]
        invariant forall m :: m in messages <==> m in old(messages) && m.stream !in names[..i]
      {
        var n := names[i];
        while true
          invariant live == old(live) && hwm == old(hwm) && driving == old(driving)
          invariant forall k | k != n :: k in markers <==> k in old(markers) && k !in names[..i]
          invariant forall m: Message | m.stream != n :: m in messages <==> m in old(messages) && m.stream !in names[..i]
          invariant messages <= old(messages)
          decreases |Of(messages, n)|
        {
          ghost var before := View();
          var removed, cleared, victims := ReapChunk(n);
          ChunkCounts(before, n, victims);
          if removed < CHUNK_ROWS {
            ShortChunkIsLast(before, n, victims);
            break;
          }
        }
        assert names[..i + 1] == names[..i] + [n];
        assert forall m | m in messages :: m.stream == n ==> m in Of(messages, n);
        i := i + 1;
      }
      assert names[..|names|] == names;
    }
  }
}
