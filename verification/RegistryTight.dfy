/** The registry's overshoot bound is attained, for every pair of caps and every hash that
    reaches all shards: with one place left, 64 subscribers, one per shard, all pass the
    check before any of them counts. */
module RegistryTight {
  import opened Registry

  /** A state some run without ReleaseAll ends in. */
  ghost predicate Reaches(r: Reg, c: Caps) {
    exists rs, es :: Run(rs, es, c) && Unreleased(es, |es|) && rs[|es|] == r
  }

  lemma InitialReached(c: Caps)
    ensures Reaches(Initial(), c)
  {
    var rs, es: seq<Step> := [Initial()], [];
    assert Run(rs, es, c) && rs[|es|] == Initial();
  }

  lemma NextReached(r: Reg, c: Caps, e: Step, s: Reg)
    requires Reaches(r, c) && Enabled(r, c, e) && !IsRelease(e) && s == Next(r, c, e)
    ensures Reaches(s, c)
  {
    var rs, es :| Run(rs, es, c) && Unreleased(es, |es|) && rs[|es|] == r;
    var rs', es' := Extend(rs, es, c, e, s);
    assert Run(rs', es', c) && Unreleased(es', |es'|) && rs'[|es'|] == s;
  }

  // ---- who subscribes ----------------------------------------------------------------

  /** `streams(i)` is some stream of shard i. */
  ghost predicate Reaching(c: Caps, streams: nat -> string) {
    forall i: nat | i < SHARDS :: ShardOf(c, streams(i)) == i
  }

  /** Subscriber n, each of a consumer of its own: the first max - 1 on shard 0, then one
      on every shard. */
  function W(c: Caps, streams: nat -> string, n: nat): Waiter {
    Waiter(n, Key(streams(if n < c.max then 0 else n - c.max + 1), seq(n, _ => 'a')), {})
  }

  /** The first n subscribers. */
  function Ws(c: Caps, streams: nat -> string, n: nat): (s: set<Waiter>)
    ensures |s| == n && forall w | w in s :: w.id < n && |w.key.consumer| == w.id
  {
    if n == 0 then {} else Ws(c, streams, n - 1) + {W(c, streams, n - 1)}
  }

  lemma NewKey(c: Caps, streams: nat -> string, n: nat)
    ensures OfKey(Ws(c, streams, n), W(c, streams, n).key) == {}
  {
  }

  // ---- the first max - 1, one after the other ------------------------------------------

  /** The first n are parked and counted. */
  function Parked(c: Caps, streams: nat -> string, n: nat): Reg {
    Initial().(nextId := n, parked := Ws(c, streams, n), total := n)
  }

  /** Anyone admitted can check, list and count in a row. */
  lemma SubscribeReached(r: Reg, c: Caps, k: Key, s: Reg)
    requires Reaches(r, c) && Quiet(r) && Admits(r, c, k)
    requires s == r.(nextId := r.nextId + 1, parked := r.parked + {Waiter(r.nextId, k, {})}, total := r.total + 1)
    ensures Reaches(s, c)
  {
    var i, w := ShardOf(c, k.stream), Waiter(r.nextId, k, {});
    var checked := r.(checked := map[i := w], nextId := r.nextId + 1);
    NextReached(r, c, Check(k, {}), checked);
    var listed := r.(parked := r.parked + {w}, appended := {i}, nextId := r.nextId + 1);
    NextReached(checked, c, Append(i), listed);
    NextReached(listed, c, Count(i), s);
  }

  lemma ParkOne(c: Caps, streams: nat -> string, n: nat)
    requires c.maxPer > 0 && n < c.max && Reaches(Parked(c, streams, n), c)
    ensures Reaches(Parked(c, streams, n + 1), c)
  {
    NewKey(c, streams, n);
    SubscribeReached(Parked(c, streams, n), c, W(c, streams, n).key, Parked(c, streams, n + 1));
  }

  lemma {:induction false} ParkMany(c: Caps, streams: nat -> string, n: nat)
    requires Reaching(c, streams) && c.maxPer > 0 && n < c.max
    ensures Reaches(Parked(c, streams, n), c)
  {
    if n == 0 {
      InitialReached(c);
      assert Parked(c, streams, 0) == Initial();
    } else {
      ParkMany(c, streams, n - 1);
      ParkOne(c, streams, n - 1);
    }
  }

  // ---- then 64 at once -------------------------------------------------------------------

  /** The subscriber shard i waits for. */
  function Late(c: Caps, streams: nat -> string, i: nat): Waiter
    requires c.max >= 1
  {
    W(c, streams, c.max - 1 + i)
  }

  lemma LateIsHome(c: Caps, streams: nat -> string, i: nat)
    requires Reaching(c, streams) && c.max >= 1 && i < SHARDS
    ensures ShardOf(c, Late(c, streams, i).key.stream) == i
  {
  }

  /** The first j shards passed their check. */
  function Checked(c: Caps, streams: nat -> string, j: nat): Reg
    requires c.max >= 1
  {
    Parked(c, streams, c.max - 1).(nextId := c.max - 1 + j, checked := map i: nat | 0 <= i < j :: Late(c, streams, i))
  }

  /** All did, and the first m have counted their waiter. */
  function Counted(c: Caps, streams: nat -> string, m: nat): Reg
    requires c.max >= 1
  {
    Parked(c, streams, c.max - 1 + m).(nextId := c.max - 1 + SHARDS,
                                       checked := map i: nat | m <= i < SHARDS :: Late(c, streams, i))
  }

  /** Shard i has listed its waiter but not counted it. */
  function Listed(c: Caps, streams: nat -> string, i: nat): Reg
    requires c.max >= 1
  {
    Counted(c, streams, i).(parked := Ws(c, streams, c.max + i), checked := Counted(c, streams, i + 1).checked,
                            appended := {i})
  }

  lemma CheckStep(c: Caps, streams: nat -> string, j: nat)
    requires Reaching(c, streams) && c.maxPer > 0 && c.max >= 1 && j < SHARDS
    ensures var r, e := Checked(c, streams, j), Check(Late(c, streams, j).key, {});
            Enabled(r, c, e) && Next(r, c, e) == Checked(c, streams, j + 1)
  {
    var r, w := Checked(c, streams, j), Late(c, streams, j);
    LateIsHome(c, streams, j);
    assert OfKey(r.parked, w.key) == {} by {
      assert forall x | x in r.parked :: |x.key.consumer| < c.max - 1;
    }
    assert Checked(c, streams, j + 1).checked == r.checked[j := w];
  }

  lemma AppendIs(r: Reg, c: Caps, i: nat, w: Waiter, rest: map<nat, Waiter>)
    requires i in r.checked && r.checked[i] == w && r.checked - {i} == rest && r.appended == {}
    ensures Enabled(r, c, Append(i))
    ensures Next(r, c, Append(i)) == r.(parked := r.parked + {w}, checked := rest, appended := {i})
  {
  }

  lemma StillChecked(c: Caps, streams: nat -> string, i: nat)
    requires c.max >= 1 && i < SHARDS
    ensures Counted(c, streams, i).checked - {i} == Counted(c, streams, i + 1).checked
  {
  }

  lemma ListedIs(c: Caps, streams: nat -> string, i: nat)
    requires c.max >= 1 && i < SHARDS
    ensures var r := Counted(c, streams, i);
            Listed(c, streams, i)
            == r.(parked := r.parked + {Late(c, streams, i)}, checked := Counted(c, streams, i + 1).checked, appended := {i})
  {
    assert Ws(c, streams, c.max + i) == Ws(c, streams, c.max - 1 + i) + {W(c, streams, c.max - 1 + i)};
  }

  lemma ListStep(c: Caps, streams: nat -> string, i: nat)
    requires c.max >= 1 && i < SHARDS
    ensures var r := Counted(c, streams, i);
            Enabled(r, c, Append(i)) && Next(r, c, Append(i)) == Listed(c, streams, i)
  {
    StillChecked(c, streams, i);
    AppendIs(Counted(c, streams, i), c, i, Late(c, streams, i), Counted(c, streams, i + 1).checked);
    ListedIs(c, streams, i);
  }

  lemma CountStep(c: Caps, streams: nat -> string, i: nat)
    requires c.max >= 1 && i < SHARDS
    ensures var r := Listed(c, streams, i);
            Enabled(r, c, Count(i)) && Next(r, c, Count(i)) == Counted(c, streams, i + 1)
  {
  }

  lemma CheckOne(c: Caps, streams: nat -> string, j: nat)
    requires Reaching(c, streams) && c.maxPer > 0 && c.max >= 1 && j < SHARDS && Reaches(Checked(c, streams, j), c)
    ensures Reaches(Checked(c, streams, j + 1), c)
  {
    CheckStep(c, streams, j);
    NextReached(Checked(c, streams, j), c, Check(Late(c, streams, j).key, {}), Checked(c, streams, j + 1));
  }

  lemma NoneChecked(c: Caps, streams: nat -> string)
    requires c.max >= 1
    ensures Checked(c, streams, 0) == Parked(c, streams, c.max - 1)
  {
  }

  lemma {:induction false} AllCheck(c: Caps, streams: nat -> string, j: nat)
    requires Reaching(c, streams) && c.maxPer > 0 && c.max >= 1 && j <= SHARDS
    ensures Reaches(Checked(c, streams, j), c)
  {
    if j == 0 {
      ParkMany(c, streams, c.max - 1);
      NoneChecked(c, streams);
    } else {
      AllCheck(c, streams, j - 1);
      CheckOne(c, streams, j - 1);
    }
  }

  lemma AllChecked(c: Caps, streams: nat -> string)
    requires c.max >= 1
    ensures Counted(c, streams, 0) == Checked(c, streams, SHARDS)
  {
  }

  lemma CountOne(c: Caps, streams: nat -> string, i: nat)
    requires c.max >= 1 && i < SHARDS && Reaches(Counted(c, streams, i), c)
    ensures Reaches(Counted(c, streams, i + 1), c)
  {
    ListStep(c, streams, i);
    NextReached(Counted(c, streams, i), c, Append(i), Listed(c, streams, i));
    CountStep(c, streams, i);
    NextReached(Listed(c, streams, i), c, Count(i), Counted(c, streams, i + 1));
  }

  lemma {:induction false} AllCount(c: Caps, streams: nat -> string, m: nat)
    requires Reaching(c, streams) && c.maxPer > 0 && c.max >= 1 && m <= SHARDS
    ensures Reaches(Counted(c, streams, m), c)
  {
    if m == 0 {
      AllCheck(c, streams, SHARDS);
      AllChecked(c, streams);
    } else {
      AllCount(c, streams, m - 1);
      CountOne(c, streams, m - 1);
    }
  }

  /** Whatever the caps, as long as they admit anyone, and whatever the hash, as long as it
      reaches every shard, max + 63 waiters can be parked and counted: the bound is exact. */
  lemma CapIsTight(c: Caps, streams: nat -> string)
    requires Reaching(c, streams) && c.maxPer > 0 && c.max >= 1
    ensures exists r :: Reaches(r, c) && r.total == |r.parked| == c.max + 63
  {
    AllCount(c, streams, SHARDS);
    var r := Counted(c, streams, SHARDS);
    assert r.total == |r.parked|;
  }
}
