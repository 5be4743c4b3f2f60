/** The sharded waiter registry as an interleaving machine: every atomic access of
    Subscribe, Close, Wake and ReleaseAll is a step of its own; a shard's lock is held
    from an operation's first step to its last. */
module Registry {
  import opened Common

  const SHARDS: nat := 64

  datatype Key = Key(stream: string, consumer: string)

  /** One parked fetch. `filters` is its snapshot of subjects it matches; ids are never
      reused, so equality is pointer identity. */
  datatype Waiter = Waiter(id: nat, key: Key, filters: set<string>)

  /** `checked`: shards whose lock holder passed both caps; `appended`: it listed its
      waiter but has not counted it; `removing`: it unlisted but has not uncounted.
      `dead` holds the closed channels, `tokens` the channels holding a token, `left`
      the subscriptions whose Close ran. */
  datatype Reg = Reg(
    parked: set<Waiter>, total: int, nextId: nat,
    checked: map<nat, Waiter>, appended: set<nat>, removing: set<nat>,
    dead: set<Waiter>, tokens: set<Waiter>, left: set<Waiter>)

  /** The two caps and the hash that spreads streams over shards. */
  datatype Caps = Caps(max: nat, maxPer: nat, hash: string -> nat)

  datatype Step =
    | Check(key: Key, filters: set<string>)
    | Append(shard: nat)
    | Count(shard: nat)
    | Unlist(w: Waiter)
    | Uncount(shard: nat)
    | Signal(shard: nat, targets: set<Waiter>)
    | Receive(w: Waiter)
    | ReleaseShard(shard: nat)
    | StoreZero

  function ShardOf(c: Caps, stream: string): nat {
    c.hash(stream) % SHARDS
  }

  function Home(c: Caps, w: Waiter): nat {
    ShardOf(c, w.key.stream)
  }

  function OfKey(ws: set<Waiter>, k: Key): set<Waiter> {
    set w | w in ws && w.key == k
  }

  function InShard(c: Caps, ws: set<Waiter>, i: nat): set<Waiter> {
    set w | w in ws && Home(c, w) == i
  }

  predicate Busy(r: Reg, i: nat) {
    i in r.checked || i in r.appended || i in r.removing
  }

  predicate Admits(r: Reg, c: Caps, k: Key) {
    r.total < c.max && |OfKey(r.parked, k)| < c.maxPer
  }

  predicate Enabled(r: Reg, c: Caps, e: Step) {
    match e
    case Check(k, _) => !Busy(r, ShardOf(c, k.stream))
    case Append(i) => i in r.checked
    case Count(i) => i in r.appended
    case Unlist(w) =>
      // a Sub exists once its Subscribe returned; sync.Once runs the body once
      && w.id < r.nextId && w !in r.left && !Busy(r, Home(c, w))
      && (w in r.parked || w in r.dead)
    case Uncount(i) => i in r.removing
    case Signal(i, targets) => i < SHARDS && !Busy(r, i) && targets <= InShard(c, r.parked, i)
    case Receive(w) => w in r.tokens
    case ReleaseShard(i) => i < SHARDS && !Busy(r, i)
    case StoreZero => true
  }

  function Next(r: Reg, c: Caps, e: Step): Reg
    requires Enabled(r, c, e)
  {
    match e
    case Check(k, filters) =>
      if !Admits(r, c, k) then r
      else r.(checked := r.checked[ShardOf(c, k.stream) := Waiter(r.nextId, k, filters)], nextId := r.nextId + 1)
    case Append(i) =>
      r.(parked := r.parked + {r.checked[i]}, checked := r.checked - {i}, appended := r.appended + {i})
    case Count(i) => r.(appended := r.appended - {i}, total := r.total + 1)
    case Unlist(w) => r.(parked := r.parked - {w}, left := r.left + {w}, removing := r.removing + {Home(c, w)})
    case Uncount(i) => r.(removing := r.removing - {i}, total := r.total - 1)
    case Signal(_, targets) => r.(tokens := r.tokens + targets)
    case Receive(w) => r.(tokens := r.tokens - {w})
    case ReleaseShard(i) =>
      r.(parked := r.parked - InShard(c, r.parked, i), dead := r.dead + InShard(c, r.parked, i))
    case StoreZero => r.(total := 0)
  }

  function Initial(): Reg {
    Reg({}, 0, 0, map[], {}, {}, {}, {}, {})
  }

  ghost predicate Follows(rs: seq<Reg>, es: seq<Step>, c: Caps, i: nat)
    requires i < |es| && |rs| == |es| + 1
  {
    Enabled(rs[i], c, es[i]) && rs[i + 1] == Next(rs[i], c, es[i])
  }

  ghost predicate Run(rs: seq<Reg>, es: seq<Step>, c: Caps) {
    && |rs| == |es| + 1
    && rs[0] == Initial()
    && forall i | 0 <= i < |es| :: Follows(rs, es, c, i)
  }

  predicate IsRelease(e: Step) {
    e.ReleaseShard? || e.StoreZero?
  }

  // ---- what every run keeps, ReleaseAll included --------------------------------------

  /** Lock discipline and identity: one operation per shard, ids below the counter. */
  ghost predicate Locked(r: Reg, c: Caps) {
    && (forall i | i in r.checked :: i < SHARDS && Home(c, r.checked[i]) == i && i !in r.appended && i !in r.removing)
    && (forall i | i in r.appended :: i < SHARDS && i !in r.removing)
    && (forall i | i in r.removing :: i < SHARDS)
  }

  ghost predicate Identity(r: Reg) {
    && (forall w | w in r.parked || w in r.dead || w in r.left :: w.id < r.nextId)
    && (forall i | i in r.checked ::
          r.checked[i].id < r.nextId && r.checked[i] !in r.parked && r.checked[i] !in r.dead && r.checked[i] !in r.left)
    && (forall i, j | i in r.checked && j in r.checked && i != j :: r.checked[i] != r.checked[j])
  }

  /** No listed channel is closed, and none belongs to a finished subscription. */
  ghost predicate ChannelsOpen(r: Reg) {
    r.parked !! r.dead && r.parked !! r.left
  }

  lemma StepKeepsLocked(r: Reg, c: Caps, e: Step)
    requires Locked(r, c) && Enabled(r, c, e)
    ensures Locked(Next(r, c, e), c)
  {
  }

  lemma StepKeepsIdentity(r: Reg, c: Caps, e: Step)
    requires Locked(r, c) && Identity(r) && Enabled(r, c, e)
    ensures Identity(Next(r, c, e))
  {
  }

  lemma StepKeepsOpen(r: Reg, c: Caps, e: Step)
    requires Identity(r) && ChannelsOpen(r) && Enabled(r, c, e)
    ensures ChannelsOpen(Next(r, c, e))
  {
  }

  ghost predicate Sound(r: Reg, c: Caps) {
    Locked(r, c) && Identity(r) && ChannelsOpen(r)
  }

  lemma {:induction false} RunIsSound(rs: seq<Reg>, es: seq<Step>, c: Caps, i: nat)
    requires Run(rs, es, c) && i <= |es|
    ensures Sound(rs[i], c)
  {
    if i > 0 {
      var r, e := rs[i - 1], es[i - 1];
      RunIsSound(rs, es, c, i - 1);
      assert Follows(rs, es, c, i - 1);
      StepKeepsLocked(r, c, e);
      StepKeepsIdentity(r, c, e);
      StepKeepsOpen(r, c, e);
    }
  }

  /** In every interleaving, ReleaseAll included: no send hits a closed channel and no
      channel is closed twice. */
  lemma ChannelSafety(rs: seq<Reg>, es: seq<Step>, c: Caps, i: nat)
    requires Run(rs, es, c) && i < |es|
    ensures es[i].Signal? ==> es[i].targets !! rs[i].dead
    ensures es[i].ReleaseShard? ==> InShard(c, rs[i].parked, es[i].shard) !! rs[i].dead
  {
    RunIsSound(rs, es, c, i);
    assert Follows(rs, es, c, i);
  }

  // ---- tokens and lists ----------------------------------------------------------------

  /** Step n signalled the waiter, which has not received since. */
  ghost predicate SignalledAt(es: seq<Step>, w: Waiter, n: nat, i: nat)
    requires i <= |es|
  {
    n < i && es[n].Signal? && w in es[n].targets && forall m | n < m < i :: es[m] != Receive(w)
  }

  /** In every interleaving a channel holds a token, one at most, exactly when its waiter was
      signalled since it last received. */
  lemma {:induction false} TokenIff(rs: seq<Reg>, es: seq<Step>, c: Caps, i: nat, w: Waiter)
    requires Run(rs, es, c) && i <= |es|
    ensures w in rs[i].tokens <==> exists n: nat :: SignalledAt(es, w, n, i)
  {
    if i > 0 {
      var k := i - 1;
      TokenIff(rs, es, c, k, w);
      assert Follows(rs, es, c, k);
      if es[k].Signal? && w in es[k].targets {
        assert SignalledAt(es, w, k, i);
      } else if es[k] != Receive(w) {
        if n: nat :| SignalledAt(es, w, n, k) {
          assert SignalledAt(es, w, n, i);
        }
        if n: nat :| SignalledAt(es, w, n, i) {
          assert SignalledAt(es, w, n, k);
        }
      }
    }
  }

  lemma ReceiveHadSignal(rs: seq<Reg>, es: seq<Step>, c: Caps, i: nat, w: Waiter)
    requires Run(rs, es, c) && i < |es| && es[i] == Receive(w)
    ensures exists n: nat :: SignalledAt(es, w, n, i)
  {
    assert Follows(rs, es, c, i);
    TokenIff(rs, es, c, i, w);
  }

  /** Step n listed the waiter; it has been neither closed nor released since. */
  ghost predicate ListedAt(rs: seq<Reg>, es: seq<Step>, c: Caps, w: Waiter, n: nat, i: nat)
    requires i <= |es| < |rs|
  {
    && n < i && es[n].Append? && es[n].shard in rs[n].checked && rs[n].checked[es[n].shard] == w
    && forall m | n < m < i :: es[m] != Unlist(w) && es[m] != ReleaseShard(Home(c, w))
  }

  lemma ListStep(r: Reg, c: Caps, e: Step, w: Waiter)
    requires Enabled(r, c, e)
    ensures w in Next(r, c, e).parked <==>
            (e.Append? && r.checked[e.shard] == w)
            || (w in r.parked && e != Unlist(w) && e != ReleaseShard(Home(c, w)))
    ensures w in Next(r, c, e).dead <==> w in r.dead || (w in r.parked && e == ReleaseShard(Home(c, w)))
    ensures w in Next(r, c, e).left <==> w in r.left || e == Unlist(w)
  {
  }

  /** In every interleaving a waiter is parked exactly from when its Subscribe lists it until
      its Close unlists it or a ReleaseAll passes its shard. */
  lemma {:induction false} ParkedIff(rs: seq<Reg>, es: seq<Step>, c: Caps, i: nat, w: Waiter)
    requires Run(rs, es, c) && i <= |es|
    ensures w in rs[i].parked <==> exists n: nat :: ListedAt(rs, es, c, w, n, i)
  {
    if i > 0 {
      var k := i - 1;
      ParkedIff(rs, es, c, k, w);
      assert Follows(rs, es, c, k);
      ListStep(rs[k], c, es[k], w);
      if es[k].Append? && rs[k].checked[es[k].shard] == w {
        assert ListedAt(rs, es, c, w, k, i);
      } else {
        if n: nat :| ListedAt(rs, es, c, w, n, k) {
          assert es[k] != Unlist(w) && es[k] != ReleaseShard(Home(c, w)) ==> ListedAt(rs, es, c, w, n, i);
        }
        if n: nat :| ListedAt(rs, es, c, w, n, i) {
          assert ListedAt(rs, es, c, w, n, k);
        }
      }
    }
  }

  lemma {:induction false} LeftForGood(rs: seq<Reg>, es: seq<Step>, c: Caps, i: nat, j: nat, w: Waiter)
    requires Run(rs, es, c) && i <= j <= |es| && w in rs[i].left
    ensures w in rs[j].left
    decreases j
  {
    if i < j {
      LeftForGood(rs, es, c, i, j - 1, w);
      assert Follows(rs, es, c, j - 1);
      ListStep(rs[j - 1], c, es[j - 1], w);
    }
  }

  /** In every interleaving a subscription closes once at most, and only after it was listed. */
  lemma ClosesOnce(rs: seq<Reg>, es: seq<Step>, c: Caps, i: nat, w: Waiter)
    requires Run(rs, es, c) && i < |es| && es[i] == Unlist(w)
    ensures forall k | 0 <= k < i :: es[k] != Unlist(w)
    ensures w in rs[i].parked || w in rs[i].dead
  {
    assert Follows(rs, es, c, i);
    forall k | 0 <= k < i ensures es[k] != Unlist(w) {
      assert Follows(rs, es, c, k);
      if es[k] == Unlist(w) {
        ListStep(rs[k], c, es[k], w);
        LeftForGood(rs, es, c, k + 1, i, w);
      }
    }
  }

  // ---- the caps, before any ReleaseAll -------------------------------------------------

  /** How far the counter, corrected for the operations in flight, is below the truth. */
  function Drift(r: Reg): int {
    |r.parked| - |r.appended| + |r.removing| - r.total
  }

  /** The counter, corrected for the operations in flight, is the number of listed
      waiters. */
  ghost predicate Balanced(r: Reg) {
    Drift(r) == 0
  }

  ghost predicate WithinMax(r: Reg, c: Caps) {
    r.total + |r.checked| + |r.appended| <= c.max + SHARDS - 1
  }

  /** Listed waiters of a key plus the one its lock holder is about to list. */
  function Load(r: Reg, c: Caps, k: Key): nat {
    |OfKey(r.parked, k)| + if ShardOf(c, k.stream) in r.checked && r.checked[ShardOf(c, k.stream)].key == k then 1 else 0
  }

  function Upto(n: nat): (r: set<nat>)
    ensures |r| == n && forall i: nat :: i in r <==> i < n
  {
    if n == 0 then {} else Upto(n - 1) + {n - 1}
  }

  /** At most one subscriber per shard is between its check and its count. */
  lemma InFlightBounded(r: Reg, c: Caps)
    requires Locked(r, c)
    ensures |r.checked| + |r.appended| <= SHARDS
  {
    var inFlight := r.checked.Keys + r.appended;
    SubsetSize(inFlight, Upto(SHARDS));
    assert |inFlight| == |r.checked.Keys| + |r.appended|;
  }

  lemma CheckKeepsMax(r: Reg, c: Caps, e: Step)
    requires Locked(r, c) && WithinMax(r, c) && Enabled(r, c, e) && e.Check?
    ensures WithinMax(Next(r, c, e), c)
  {
    StepKeepsLocked(r, c, e);
    InFlightBounded(Next(r, c, e), c);
  }

  lemma StepKeepsMax(r: Reg, c: Caps, e: Step)
    requires Locked(r, c) && WithinMax(r, c) && Enabled(r, c, e) && !IsRelease(e)
    ensures WithinMax(Next(r, c, e), c)
  {
    match e
    case Check(_, _) => CheckKeepsMax(r, c, e);
    case Append(i) =>
      assert (r.checked - {i}).Keys == r.checked.Keys - {i};
    case _ =>
  }

  lemma StepKeepsBalance(r: Reg, c: Caps, e: Step)
    requires Locked(r, c) && Identity(r) && Balanced(r) && r.dead == {} && Enabled(r, c, e) && !IsRelease(e)
    ensures Balanced(Next(r, c, e)) && Next(r, c, e).dead == {}
  {
    DriftStep(r, c, e);
  }

  lemma AppendKeepsLoad(r: Reg, c: Caps, i: nat, k: Key)
    requires i in r.checked && Home(c, r.checked[i]) == i && Enabled(r, c, Append(i))
    ensures Load(Next(r, c, Append(i)), c, k) <= Load(r, c, k)
  {
    var w := r.checked[i];
    assert OfKey(r.parked + {w}, k) == if w.key == k then OfKey(r.parked, k) + {w} else OfKey(r.parked, k);
  }

  lemma StepKeepsPer(r: Reg, c: Caps, e: Step, k: Key)
    requires Locked(r, c) && Load(r, c, k) <= c.maxPer && Enabled(r, c, e)
    ensures Load(Next(r, c, e), c, k) <= c.maxPer
  {
    match e
    case Append(i) => AppendKeepsLoad(r, c, i, k);
    case Unlist(w) => SubsetSize(OfKey(r.parked - {w}, k), OfKey(r.parked, k));
    case ReleaseShard(i) => SubsetSize(OfKey(r.parked - InShard(c, r.parked, i), k), OfKey(r.parked, k));
    case _ =>
  }

  ghost predicate Unreleased(es: seq<Step>, n: nat)
    requires n <= |es|
  {
    forall j | 0 <= j < n :: !IsRelease(es[j])
  }

  lemma {:induction false} RunKeepsCaps(rs: seq<Reg>, es: seq<Step>, c: Caps, i: nat)
    requires Run(rs, es, c) && i <= |es| && Unreleased(es, i)
    ensures Balanced(rs[i]) && WithinMax(rs[i], c) && rs[i].dead == {}
  {
    if i > 0 {
      RunKeepsCaps(rs, es, c, i - 1);
      RunIsSound(rs, es, c, i - 1);
      assert Follows(rs, es, c, i - 1);
      StepKeepsBalance(rs[i - 1], c, es[i - 1]);
      StepKeepsMax(rs[i - 1], c, es[i - 1]);
    }
  }

  /** The per-consumer cap is exact in every interleaving, ReleaseAll included. */
  lemma {:induction false} PerConsumerCap(rs: seq<Reg>, es: seq<Step>, c: Caps, i: nat, k: Key)
    requires Run(rs, es, c) && i <= |es|
    ensures Load(rs[i], c, k) <= c.maxPer
  {
    if i > 0 {
      PerConsumerCap(rs, es, c, i - 1, k);
      RunIsSound(rs, es, c, i - 1);
      assert Follows(rs, es, c, i - 1);
      StepKeepsPer(rs[i - 1], c, es[i - 1], k);
    } else {
      assert OfKey(rs[0].parked, k) == {};
    }
  }

  ghost predicate Quiet(r: Reg) {
    r.checked == map[] && r.appended == {} && r.removing == {}
  }

  /** Before any ReleaseAll the counter overshoots the global cap by at most 63, and is
      exact whenever no Subscribe or Close is in flight. */
  lemma GlobalCap(rs: seq<Reg>, es: seq<Step>, c: Caps, i: nat)
    requires Run(rs, es, c) && i <= |es| && Unreleased(es, i)
    ensures rs[i].total <= c.max + 63
    ensures Quiet(rs[i]) ==> rs[i].total == |rs[i].parked|
  {
    RunKeepsCaps(rs, es, c, i);
  }

  // ---- after ReleaseAll ----------------------------------------------------------------

  /** Closing a subscription keeps the count right exactly when its waiter is still
      listed; after ReleaseAll it is not, and the count drops below the truth. */
  lemma CloseKeepsBalanceIff(r: Reg, c: Caps, w: Waiter)
    requires Sound(r, c) && Balanced(r) && Enabled(r, c, Unlist(w))
    ensures var s := Next(r, c, Unlist(w));
            Balanced(Next(s, c, Uncount(Home(c, w)))) <==> w in r.parked
  {
    var s := Next(r, c, Unlist(w));
    var u := Next(s, c, Uncount(Home(c, w)));
    assert u.removing == r.removing;
    if w in r.parked {
      assert |u.parked| == |r.parked| - 1;
    } else {
      assert u.parked == r.parked;
    }
  }

  /** Outside ReleaseAll only the close of a waiter no longer listed adds to the drift. */
  lemma DriftStep(r: Reg, c: Caps, e: Step)
    requires Locked(r, c) && Identity(r) && Enabled(r, c, e) && !IsRelease(e)
    ensures Drift(Next(r, c, e)) == Drift(r) + if e.Unlist? && e.w !in r.parked then 1 else 0
  {
    match e
    case Append(i) => AppendDrift(r, c, i);
    case Count(i) => assert |r.appended - {i}| == |r.appended| - 1;
    case Unlist(w) => UnlistDrift(r, c, w);
    case Uncount(i) => assert |r.removing - {i}| == |r.removing| - 1;
    case _ =>
  }

  lemma AppendDrift(r: Reg, c: Caps, i: nat)
    requires Locked(r, c) && Identity(r) && i in r.checked
    ensures Drift(Next(r, c, Append(i))) == Drift(r)
  {
    assert |r.parked + {r.checked[i]}| == |r.parked| + 1;
    assert |r.appended + {i}| == |r.appended| + 1;
  }

  lemma UnlistDrift(r: Reg, c: Caps, w: Waiter)
    requires Locked(r, c) && Enabled(r, c, Unlist(w))
    ensures Drift(Next(r, c, Unlist(w))) == Drift(r) + if w in r.parked then 0 else 1
  {
    assert |r.removing + {Home(c, w)}| == |r.removing| + 1;
    assert |r.parked - {w}| == if w in r.parked then |r.parked| - 1 else |r.parked|;
  }

  /** Closes, from step `lo` up to step `hi`, of waiters that were no longer listed. */
  ghost function LateCloses(rs: seq<Reg>, es: seq<Step>, lo: nat, hi: nat): nat
    requires lo <= hi <= |es| < |rs|
    decreases hi - lo
  {
    if lo == hi then 0
    else LateCloses(rs, es, lo, hi - 1) + if es[hi - 1].Unlist? && es[hi - 1].w !in rs[hi - 1].parked then 1 else 0
  }

  lemma {:induction false} DriftSum(rs: seq<Reg>, es: seq<Step>, c: Caps, lo: nat, hi: nat)
    requires Run(rs, es, c) && lo <= hi <= |es| && forall k | lo <= k < hi :: !IsRelease(es[k])
    ensures Drift(rs[hi]) == Drift(rs[lo]) + LateCloses(rs, es, lo, hi)
    decreases hi - lo
  {
    if lo < hi {
      DriftSum(rs, es, c, lo, hi - 1);
      RunIsSound(rs, es, c, hi - 1);
      assert Follows(rs, es, c, hi - 1);
      DriftStep(rs[hi - 1], c, es[hi - 1]);
    }
  }

  /** Whoever is about to be counted is listed. */
  ghost predicate AppendedListed(r: Reg, c: Caps) {
    forall i | i in r.appended :: exists w :: w in r.parked && Home(c, w) == i
  }

  lemma StepKeepsListed(r: Reg, c: Caps, e: Step)
    requires Locked(r, c) && AppendedListed(r, c) && Enabled(r, c, e)
    ensures AppendedListed(Next(r, c, e), c)
  {
    var s := Next(r, c, e);
    forall i | i in s.appended ensures exists w :: w in s.parked && Home(c, w) == i {
      if i in r.appended {
        var w :| w in r.parked && Home(c, w) == i;
        assert w in s.parked;
      } else {
        assert r.checked[i] in s.parked;
      }
    }
  }

  lemma {:induction false} RunKeepsListed(rs: seq<Reg>, es: seq<Step>, c: Caps, i: nat)
    requires Run(rs, es, c) && i <= |es|
    ensures AppendedListed(rs[i], c)
  {
    if i > 0 {
      RunKeepsListed(rs, es, c, i - 1);
      RunIsSound(rs, es, c, i - 1);
      assert Follows(rs, es, c, i - 1);
      StepKeepsListed(rs[i - 1], c, es[i - 1]);
    }
  }

  /** As many listed waiters as shards with one. */
  lemma {:induction false} HomesBound(ws: set<Waiter>, c: Caps, shards: set<nat>)
    requires forall i | i in shards :: exists w :: w in ws && Home(c, w) == i
    ensures |shards| <= |ws|
  {
    if shards != {} {
      var i := Member(shards);
      var w :| w in ws && Home(c, w) == i;
      forall j | j in shards - {i} ensures exists x :: x in ws - {w} && Home(c, x) == j {
        var x :| x in ws && Home(c, x) == j;
        assert x in ws - {w};
      }
      HomesBound(ws - {w}, c, shards - {i});
    }
  }

  /** After a ReleaseAll the counter at rest is short by what its final store wiped out
      too early and by every later close of a released waiter. So it is exact if and only
      if, when zero was stored, no counted waiter was listed and no close was under way,
      and no released waiter was closed since. */
  lemma CountAfterRelease(rs: seq<Reg>, es: seq<Step>, c: Caps, z: nat, i: nat)
    requires Run(rs, es, c) && z < i <= |es| && es[z] == StoreZero
    requires forall k | z < k < i :: !IsRelease(es[k])
    ensures var late := LateCloses(rs, es, z + 1, i);
            Quiet(rs[i]) ==>
              && rs[i].total == |rs[i].parked| - (|rs[z].parked| - |rs[z].appended| + |rs[z].removing|) - late
              && (rs[i].total == |rs[i].parked| <==>
                    |rs[z].parked| == |rs[z].appended| && rs[z].removing == {} && late == 0)
  {
    assert Follows(rs, es, c, z);
    DriftSum(rs, es, c, z + 1, i);
    RunKeepsListed(rs, es, c, z);
    HomesBound(rs[z].parked, c, rs[z].appended);
  }

  /** A run goes on with any enabled step. */
  lemma Extend(rs: seq<Reg>, es: seq<Step>, c: Caps, e: Step, s: Reg) returns (rs': seq<Reg>, es': seq<Step>)
    requires Run(rs, es, c) && Enabled(rs[|es|], c, e) && s == Next(rs[|es|], c, e)
    ensures es' == es + [e] && Run(rs', es', c) && rs'[|es'|] == s
  {
    rs', es' := rs + [s], es + [e];
    forall i | 0 <= i < |es'| ensures Follows(rs', es', c, i) {
      if i < |es| {
        assert Follows(rs, es, c, i);
        assert rs'[i] == rs[i] && es'[i] == es[i] && rs'[i + 1] == rs[i + 1];
      }
    }
  }

  /** Check, append and count one waiter of an empty registry. */
  lemma ParkFirst(k: Key, c: Caps, w: Waiter) returns (rs: seq<Reg>, es: seq<Step>)
    requires c.max > 0 && c.maxPer > 0 && w == Waiter(0, k, {})
    ensures Run(rs, es, c) && rs[|es|] == Initial().(nextId := 1, parked := {w}, total := 1)
  {
    var i := ShardOf(c, k.stream);
    var r0 := Initial();
    assert OfKey(r0.parked, k) == {};
    rs, es := [r0], [];
    rs, es := Extend(rs, es, c, Check(k, {}), r0.(checked := map[i := w], nextId := 1));
    rs, es := Extend(rs, es, c, Append(i), r0.(nextId := 1, parked := {w}, appended := {i}));
    rs, es := Extend(rs, es, c, Count(i), r0.(nextId := 1, parked := {w}, total := 1));
  }

  /** One fetch parked at shutdown leaves the counter at minus one, for every key. */
  lemma ReleaseThenClose(k: Key, c: Caps) returns (rs: seq<Reg>, es: seq<Step>)
    requires c.max > 0 && c.maxPer > 0
    ensures Run(rs, es, c) && Quiet(rs[|es|]) && rs[|es|].parked == {} && rs[|es|].total == -1
  {
    var i, w := ShardOf(c, k.stream), Waiter(0, k, {});
    rs, es := ParkFirst(k, c, w);
    var r := rs[|es|];
    assert InShard(c, r.parked, i) == {w};
    var gone := r.(parked := {}, dead := {w});
    rs, es := Extend(rs, es, c, ReleaseShard(i), gone);
    rs, es := Extend(rs, es, c, StoreZero, gone.(total := 0));
    rs, es := Extend(rs, es, c, Unlist(w), gone.(total := 0, left := {w}, removing := {i}));
    rs, es := Extend(rs, es, c, Uncount(i), gone.(total := -1, left := {w}));
  }
}
