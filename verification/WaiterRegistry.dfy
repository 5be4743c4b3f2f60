/** The registry's operations as written, over per-shard tables of waiter lists; each one
    run under its lock is the registry machine's steps in sequence. */
module WaiterRegistry {
  import opened Common
  import opened Registry

  type Shard = map<Key, seq<Waiter>>

  // ---- tables ----------------------------------------------------------------------

  ghost predicate Distinct(ws: seq<Waiter>) {
    forall i, j | 0 <= i < j < |ws| :: ws[i] != ws[j]
  }

  function Elements(ws: seq<Waiter>): set<Waiter> {
    set i | 0 <= i < |ws| :: ws[i]
  }

  ghost predicate GoodList(ws: seq<Waiter>, k: Key) {
    ws != [] && Distinct(ws) && forall i | 0 <= i < |ws| :: ws[i].key == k
  }

  function ListOf(t: seq<Shard>, c: Caps, k: Key): seq<Waiter>
    requires |t| == SHARDS
  {
    var sh := t[ShardOf(c, k.stream)];
    if k in sh then sh[k] else []
  }

  /** The tables list exactly `parked`, each waiter once, under its own key and shard. */
  ghost predicate Tidy(t: seq<Shard>, c: Caps, parked: set<Waiter>) {
    && |t| == SHARDS
    && (forall i, k | 0 <= i < SHARDS && k in t[i] :: ShardOf(c, k.stream) == i && GoodList(t[i][k], k))
    && (forall k :: Elements(ListOf(t, c, k)) == OfKey(parked, k))
  }

  lemma ElementsSnoc(ws: seq<Waiter>, w: Waiter)
    ensures Elements(ws + [w]) == Elements(ws) + {w}
  {
    forall x | x in Elements(ws) + {w} ensures x in Elements(ws + [w]) {
      if x == w {
        assert (ws + [w])[|ws|] == w;
      } else {
        var i :| 0 <= i < |ws| && ws[i] == x;
        assert (ws + [w])[i] == x;
      }
    }
  }

  lemma {:induction false} DistinctSize(ws: seq<Waiter>)
    requires Distinct(ws)
    ensures |Elements(ws)| == |ws|
  {
    if ws != [] {
      var n := |ws| - 1;
      DistinctSize(ws[..n]);
      assert Elements(ws) == Elements(ws[..n]) + {ws[n]};
    }
  }

  /** A key's list is as long as the key has parked waiters. */
  lemma ListSize(t: seq<Shard>, c: Caps, parked: set<Waiter>, k: Key)
    requires Tidy(t, c, parked)
    ensures |ListOf(t, c, k)| == |OfKey(parked, k)|
  {
    assert Elements(ListOf(t, c, k)) == OfKey(parked, k);
    DistinctSize(ListOf(t, c, k));
  }

  /** Replacing one key's list, or dropping it when empty. */
  function Put(t: seq<Shard>, c: Caps, k: Key, ws: seq<Waiter>): seq<Shard>
    requires |t| == SHARDS
  {
    var i := ShardOf(c, k.stream);
    t[i := if ws == [] then t[i] - {k} else t[i][k := ws]]
  }

  lemma PutTidy(t: seq<Shard>, c: Caps, parked: set<Waiter>, k: Key, ws: seq<Waiter>, parked': set<Waiter>)
    requires Tidy(t, c, parked)
    requires ws == [] || GoodList(ws, k)
    requires Elements(ws) == OfKey(parked', k)
    requires forall j | j != k :: OfKey(parked', j) == OfKey(parked, j)
    ensures Tidy(Put(t, c, k, ws), c, parked')
  {
    var u := Put(t, c, k, ws);
    forall j ensures Elements(ListOf(u, c, j)) == OfKey(parked', j) {
      assert Elements(ListOf(t, c, j)) == OfKey(parked, j);
      if j == k {
        assert ListOf(u, c, j) == ws;
      } else {
        assert ListOf(u, c, j) == ListOf(t, c, j);
      }
    }
  }

  lemma AppendTidy(t: seq<Shard>, c: Caps, parked: set<Waiter>, w: Waiter)
    requires Tidy(t, c, parked) && w !in parked
    ensures Tidy(Put(t, c, w.key, ListOf(t, c, w.key) + [w]), c, parked + {w})
  {
    var k := w.key;
    var ws := ListOf(t, c, k);
    assert Elements(ws) == OfKey(parked, k);
    ElementsSnoc(ws, w);
    assert OfKey(parked + {w}, k) == OfKey(parked, k) + {w};
    assert Distinct(ws + [w]) by {
      assert forall i | 0 <= i < |ws| :: ws[i] in Elements(ws);
    }
    PutTidy(t, c, parked, k, ws + [w], parked + {w});
  }

  lemma RemoveTidy(t: seq<Shard>, c: Caps, parked: set<Waiter>, w: Waiter, i: nat)
    requires Tidy(t, c, parked) && i < |ListOf(t, c, w.key)| && ListOf(t, c, w.key)[i] == w
    ensures var ws := ListOf(t, c, w.key);
            Tidy(Put(t, c, w.key, ws[..i] + ws[i + 1..]), c, parked - {w})
  {
    var k := w.key;
    var ws := ListOf(t, c, k);
    var rest := ws[..i] + ws[i + 1..];
    assert Elements(ws) == OfKey(parked, k);
    assert forall j | 0 <= j < |rest| :: rest[j] == ws[if j < i then j else j + 1];
    assert Elements(rest) == Elements(ws) - {w} by {
      forall x | x in Elements(ws) - {w} ensures x in Elements(rest) {
        var j :| 0 <= j < |ws| && ws[j] == x;
        assert rest[if j < i then j else j - 1] == x;
      }
    }
    PutTidy(t, c, parked, k, rest, parked - {w});
  }

  // ---- the operations ----------------------------------------------------------------

  datatype Subscribed = Parked(w: Waiter) | RegistryFull(limit: nat) | ConsumerFull(key: Key, limit: nat)

  class WaiterTable {
    const c: Caps
    var byKey: seq<Shard>
    var total: int
    var nextId: nat
    var tokens: set<Waiter>
    var left: set<Waiter>
    var dead: set<Waiter>
    ghost var parked: set<Waiter>

    ghost predicate Valid()
      reads this
    {
      && Tidy(byKey, c, parked)
      && (forall w | w in parked || w in dead || w in left :: w.id < nextId)
      && parked !! dead && parked !! left
    }

    /** The machine's state with no operation in flight. */
    ghost function View(): Reg
      reads this
    {
      Reg(parked, total, nextId, map[], {}, {}, dead, tokens, left)
    }

    constructor (caps: Caps)
      ensures Valid() && c == caps && View() == Initial()
    {
      c := caps;
      byKey := seq(SHARDS, _ => map[]);
      total, nextId, tokens, parked, dead, left := 0, 0, {}, {}, {}, {};
      new;
      forall k ensures Elements(ListOf(byKey, c, k)) == OfKey(parked, k) {
      }
    }

    /** Refuses exactly when a cap is full; otherwise check, list and count. */
    method Subscribe(k: Key, filters: set<string>) returns (out: Subscribed)
      requires Valid()
      modifies this
      ensures Valid()
      ensures out.RegistryFull? <==> old(total) >= c.max
      ensures out.ConsumerFull? <==> old(total) < c.max && |OfKey(old(parked), k)| >= c.maxPer
      ensures !out.Parked? ==> View() == old(View())
      ensures out.Parked? ==>
                && out.w == Waiter(old(nextId), k, filters)
                && View() == Counted(old(View()), c, k, filters)
    {
      ListSize(byKey, c, parked, k);
      if total >= c.max {
        return RegistryFull(c.max);
      }
      var ws := ListOf(byKey, c, k);
      if |ws| >= c.maxPer {
        return ConsumerFull(k, c.maxPer);
      }
      var w := Waiter(nextId, k, filters);
      CountedIs(View(), c, k, filters);
      AppendTidy(byKey, c, parked, w);
      byKey := Put(byKey, c, k, ws + [w]);
      parked := parked + {w};
      nextId := nextId + 1;
      total := total + 1;
      return Parked(w);
    }

    /** Runs once per subscription; splices the waiter out if it is still listed, and
        takes one off the counter either way. */
    method Close(w: Waiter)
      requires Valid() && (w in parked || w in dead)
      modifies this
      ensures Valid()
      ensures w in old(left) ==> View() == old(View())
      ensures w !in old(left) ==> View() == Uncounted(old(View()), c, w)
    {
      if w in left {
        return;
      }
      UncountedIs(View(), c, w);
      var ws := ListOf(byKey, c, w.key);
      assert Elements(ws) == OfKey(parked, w.key);
      var i := 0;
      while i < |ws| && ws[i] != w
        invariant 0 <= i <= |ws| && forall j | 0 <= j < i :: ws[j] != w
      {
        i := i + 1;
      }
      if i < |ws| {
        RemoveTidy(byKey, c, parked, w, i);
        byKey := Put(byKey, c, w.key, ws[..i] + ws[i + 1..]);
      } else {
        assert w !in Elements(ws);
        assert w !in OfKey(parked, w.key);
      }
      parked := parked - {w};
      left := left + {w};
      total := total - 1;
    }

    /** One token at most for every waiter parked on the key, none for anyone else. */
    method Wake(k: Key)
      requires Valid()
      modifies this`tokens
      ensures Valid() && Enabled(old(View()), c, Signal(ShardOf(c, k.stream), OfKey(parked, k)))
      ensures View() == Next(old(View()), c, Signal(ShardOf(c, k.stream), OfKey(parked, k)))
    {
      var ws := ListOf(byKey, c, k);
      assert Elements(ws) == OfKey(parked, k);
      for i := 0 to |ws|
        invariant tokens == old(tokens) + Elements(ws[..i])
      {
        assert ws[..i + 1] == ws[..i] + [ws[i]];
        ElementsSnoc(ws[..i], ws[i]);
        tokens := tokens + {ws[i]};
      }
      assert ws[..|ws|] == ws;
    }

    /** A committed publish: a token for exactly the parked waiters of that stream whose
        filters match, whichever consumer they wait for. */
    method WakeMatching(stream: string, subj: string)
      requires Valid()
      modifies this`tokens
      ensures Valid() && Enabled(old(View()), c, Signal(ShardOf(c, stream), Matching(parked, stream, subj)))
      ensures View() == Next(old(View()), c, Signal(ShardOf(c, stream), Matching(parked, stream, subj)))
    {
      var sh := byKey[ShardOf(c, stream)];
      var pool := sh.Keys;
      ghost var done: set<Key> := {};
      while pool != {}
        invariant pool + done == sh.Keys
        invariant tokens == old(tokens) + Matching(OfKeys(parked, done), stream, subj)
        decreases |pool|
      {
        ghost var some := Member(pool);
        var k :| k in pool;
        assert ListOf(byKey, c, k) == sh[k];
        assert Elements(sh[k]) == OfKey(parked, k);
        SignalList(sh[k], stream, subj);
        pool, done := pool - {k}, done + {k};
      }
      ShardListed(byKey, c, parked, ShardOf(c, stream));
      assert Matching(OfKeys(parked, done), stream, subj) == Matching(parked, stream, subj);
    }

    method SignalList(ws: seq<Waiter>, stream: string, subj: string)
      modifies this`tokens
      ensures tokens == old(tokens) + Matching(Elements(ws), stream, subj)
    {
      for i := 0 to |ws|
        invariant tokens == old(tokens) + Matching(Elements(ws[..i]), stream, subj)
      {
        assert ws[..i + 1] == ws[..i] + [ws[i]];
        ElementsSnoc(ws[..i], ws[i]);
        if ws[i].key.stream == stream && subj in ws[i].filters {
          tokens := tokens + {ws[i]};
        }
      }
      assert ws[..|ws|] == ws;
    }

    /** The distinct keys somebody is parked on; the counter short-circuits at zero. */
    method Waiting() returns (keys: set<Key>)
      requires Valid()
      ensures total == 0 ==> keys == {}
      ensures total != 0 ==> keys == set w | w in parked :: w.key
    {
      keys := {};
      if total == 0 {
        return;
      }
      for i := 0 to SHARDS
        invariant forall k :: k in keys <==> exists j :: 0 <= j < i && k in byKey[j]
      {
        keys := keys + byKey[i].Keys;
      }
      forall k ensures k in keys <==> k in (set w | w in parked :: w.key) {
        KeyIsListed(byKey, c, parked, k);
      }
    }

    /** Closes every parked channel once, empties every shard, zeroes the counter. */
    method ReleaseAll()
      requires Valid()
      modifies this
      ensures Valid() && parked == {} && total == 0
      ensures dead == old(dead) + old(parked)
      ensures tokens == old(tokens) && left == old(left) && nextId == old(nextId)
    {
      for i := 0 to SHARDS
        invariant Valid() && tokens == old(tokens) && left == old(left) && nextId == old(nextId)
        invariant dead == old(dead) + (old(parked) - parked) && parked <= old(parked)
        invariant forall w | w in parked :: Home(c, w) >= i
      {
        CloseShard(i);
      }
      total := 0;
    }

    /** One shard of ReleaseAll is the machine's release step for it. */
    method CloseShard(i: nat)
      requires Valid() && i < SHARDS
      modifies this`byKey, this`dead, this`parked
      ensures Valid() && View() == Next(old(View()), c, ReleaseShard(i))
    {
      CloseChannels(i);
      ReleaseTidy(byKey, c, parked, i);
      byKey := byKey[i := map[]];
      parked := parked - InShard(c, parked, i);
    }

    method CloseChannels(i: nat)
      requires Valid() && i < SHARDS
      modifies this`dead
      ensures dead == old(dead) + InShard(c, parked, i)
    {
      ShardListed(byKey, c, parked, i);
      var sh := byKey[i];
      var pool := sh.Keys;
      ghost var done: set<Key> := {};
      while pool != {}
        invariant pool + done == sh.Keys && pool !! done
        invariant dead == old(dead) + OfKeys(parked, done)
        decreases |pool|
      {
        ghost var some := Member(pool);
        var k :| k in pool;
        assert ListOf(byKey, c, k) == sh[k];
        assert Elements(sh[k]) == OfKey(parked, k);
        CloseList(sh[k]);
        pool, done := pool - {k}, done + {k};
      }
    }

    /** Closing a channel twice would panic: every element must still be open. */
    method CloseList(ws: seq<Waiter>)
      requires Distinct(ws) && Elements(ws) !! dead
      modifies this`dead
      ensures dead == old(dead) + Elements(ws)
    {
      for i := 0 to |ws|
        invariant dead == old(dead) + Elements(ws[..i])
      {
        assert ws[i] !in dead by {
          assert ws[i] in Elements(ws);
        }
        assert ws[..i + 1] == ws[..i] + [ws[i]];
        ElementsSnoc(ws[..i], ws[i]);
        dead := dead + {ws[i]};
      }
      assert ws[..|ws|] == ws;
    }
  }

  function OfKeys(ws: set<Waiter>, ks: set<Key>): set<Waiter> {
    set w | w in ws && w.key in ks
  }

  function Matching(ws: set<Waiter>, stream: string, subj: string): set<Waiter> {
    set w | w in ws && w.key.stream == stream && subj in w.filters
  }

  lemma KeyIsListed(t: seq<Shard>, c: Caps, parked: set<Waiter>, k: Key)
    requires Tidy(t, c, parked)
    ensures (exists j :: 0 <= j < SHARDS && k in t[j]) <==> exists w :: w in parked && w.key == k
  {
    assert Elements(ListOf(t, c, k)) == OfKey(parked, k);
    if j :| 0 <= j < SHARDS && k in t[j] {
      assert ListOf(t, c, k)[0] in OfKey(parked, k);
    }
    if w :| w in parked && w.key == k {
      assert w in OfKey(parked, k);
      assert k in t[ShardOf(c, k.stream)];
    }
  }

  lemma ShardListed(t: seq<Shard>, c: Caps, parked: set<Waiter>, i: nat)
    requires Tidy(t, c, parked) && i < SHARDS
    ensures OfKeys(parked, t[i].Keys) == InShard(c, parked, i)
  {
    forall w | w in InShard(c, parked, i) ensures w.key in t[i] {
      assert Elements(ListOf(t, c, w.key)) == OfKey(parked, w.key);
      assert w in OfKey(parked, w.key);
    }
  }

  lemma ReleaseTidy(t: seq<Shard>, c: Caps, parked: set<Waiter>, i: nat)
    requires Tidy(t, c, parked) && i < SHARDS
    ensures Tidy(t[i := map[]], c, parked - InShard(c, parked, i))
  {
    var u, rest := t[i := map[]], parked - InShard(c, parked, i);
    forall j, k: Key | 0 <= j < SHARDS && k in u[j] ensures ShardOf(c, k.stream) == j && GoodList(u[j][k], k) {
      assert j != i && k in t[j] && u[j] == t[j];
    }
    forall k ensures Elements(ListOf(u, c, k)) == OfKey(rest, k) {
      assert Elements(ListOf(t, c, k)) == OfKey(parked, k);
      if ShardOf(c, k.stream) == i {
        assert OfKey(rest, k) == {};
      } else {
        assert OfKey(rest, k) == OfKey(parked, k);
      }
    }
  }

  /** Check, Append, Count in a row. */
  function Counted(r: Reg, c: Caps, k: Key, filters: set<string>): Reg
    requires Quiet(r) && Admits(r, c, k)
  {
    var i := ShardOf(c, k.stream);
    Next(Next(Next(r, c, Check(k, filters)), c, Append(i)), c, Count(i))
  }

  lemma CountedIs(r: Reg, c: Caps, k: Key, filters: set<string>)
    requires Quiet(r) && Admits(r, c, k)
    ensures Counted(r, c, k, filters)
         == r.(parked := r.parked + {Waiter(r.nextId, k, filters)}, nextId := r.nextId + 1, total := r.total + 1)
  {
  }

  /** Unlist, Uncount in a row. */
  function Uncounted(r: Reg, c: Caps, w: Waiter): Reg
    requires Quiet(r) && Enabled(r, c, Unlist(w))
  {
    Next(Next(r, c, Unlist(w)), c, Uncount(Home(c, w)))
  }

  lemma UncountedIs(r: Reg, c: Caps, w: Waiter)
    requires Quiet(r) && Enabled(r, c, Unlist(w))
    ensures Uncounted(r, c, w) == r.(parked := r.parked - {w}, left := r.left + {w}, total := r.total - 1)
  {
  }
}
