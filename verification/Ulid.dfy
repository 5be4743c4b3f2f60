/** The id generator: strictly increasing 128-bit ids whatever the clock and the entropy
    source do. */
module Ulid {

  const MAX_MINT_ATTEMPTS: nat := 8
  const UINT64: nat := 0x1_0000_0000_0000_0000

  type Byte = x: int | 0 <= x < 256
  type U64 = x: int | 0 <= x < UINT64
  type Id = u: seq<Byte> | |u| == 16 witness seq(16, _ => 0)

  /** What the library's mint did: an id, or an error. */
  datatype Mint = Failed | Minted(id: Id)

  /** 64-bit addition of a small number. */
  function Add64(x: U64, k: nat): U64
    requires k <= UINT64
  {
    if x + k < UINT64 then x + k else x + k - UINT64
  }

  lemma Add64IsMod(x: U64, k: nat)
    requires k <= MAX_MINT_ATTEMPTS
    ensures Add64(x, k) == (x + k) % UINT64
  {
  }

  /** The id as a big-endian number. */
  function Number(u: seq<Byte>): nat {
    if u == [] then 0 else Number(u[..|u| - 1]) * 256 + u[|u| - 1]
  }

  function Pow256(n: nat): nat {
    if n == 0 then 1 else 256 * Pow256(n - 1)
  }

  predicate AllOnes(u: seq<Byte>) {
    forall i | 0 <= i < |u| :: u[i] == 0xFF
  }

  lemma {:induction false} NumberBound(u: seq<Byte>)
    ensures Number(u) < Pow256(|u|)
    ensures Number(u) == Pow256(|u|) - 1 <==> AllOnes(u)
  {
    if u != [] {
      NumberBound(u[..|u| - 1]);
    }
  }

  // ---- lexicographic comparison is numeric --------------------------------------------

  /** bytes.Compare as a three-way result. */
  function Compare(u: seq<Byte>, v: seq<Byte>): int
    requires |u| == |v|
  {
    if u == [] then 0
    else
      var c := Compare(u[..|u| - 1], v[..|v| - 1]);
      if c != 0 then c
      else if u[|u| - 1] < v[|v| - 1] then -1
      else if u[|u| - 1] > v[|v| - 1] then 1
      else 0
  }

  lemma {:induction false} CompareIsNumeric(u: seq<Byte>, v: seq<Byte>)
    requires |u| == |v|
    ensures Compare(u, v) > 0 <==> Number(u) > Number(v)
    ensures Compare(u, v) == 0 <==> Number(u) == Number(v)
    ensures Number(u) == Number(v) <==> u == v
  {
    if u != [] {
      CompareIsNumeric(u[..|u| - 1], v[..|v| - 1]);
      assert u == u[..|u| - 1] + [u[|u| - 1]] && v == v[..|v| - 1] + [v[|v| - 1]];
    }
  }

  // ---- the carry loop ------------------------------------------------------------------

  /** Adding one from the last byte up, all 0xFF wrapping to zero. */
  function Succ(u: seq<Byte>): (r: seq<Byte>)
    ensures |r| == |u|
  {
    if u == [] then []
    else
      var n := |u| - 1;
      if u[n] == 0xFF then Succ(u[..n]) + [0] else u[..n] + [u[n] + 1]
  }

  /** It adds exactly one to the number, or wraps to zero from all 0xFF. */
  lemma {:induction false} SuccAddsOne(u: seq<Byte>)
    ensures Number(Succ(u)) == if AllOnes(u) then 0 else Number(u) + 1
  {
    if u != [] {
      var n := |u| - 1;
      SuccAddsOne(u[..n]);
      assert Succ(u)[..n] == if u[n] == 0xFF then Succ(u[..n]) else u[..n];
    }
  }

  method Increment(last: seq<Byte>) returns (u: seq<Byte>)
    ensures u == Succ(last)
  {
    u := last;
    var i := |u| - 1;
    assert last[..|u|] == last;
    while i >= 0
      invariant -1 <= i < |u| == |last| && u[..i + 1] == last[..i + 1]
      invariant Succ(last) == Succ(last[..i + 1]) + u[i + 1..]
    {
      var before := u;
      assert last[..i + 1][..i] == last[..i];
      var b: int := u[i];
      u := u[i := (b + 1) % 256];
      assert u[..i] == last[..i] && u[i..] == [u[i]] + before[i + 1..];
      if u[i] != 0 {
        assert u == last[..i] + [last[i] + 1] + before[i + 1..];
        return;
      }
      i := i - 1;
    }
  }

  // ---- the generator -------------------------------------------------------------------

  datatype State = State(ms: U64, seen: U64, last: Id)

  /** A mint whose id follows `last`. */
  predicate Follows(m: Mint, last: Id) {
    m.Minted? && Compare(m.id, last) > 0
  }

  /** The first attempt from the i-th on whose id follows `last`; |mints| if none does. */
  function FirstGood(last: Id, mints: seq<Mint>, i: nat): (k: nat)
    requires i <= |mints|
    ensures i <= k <= |mints| && (k < |mints| ==> Follows(mints[k], last))
    decreases |mints| - i
  {
    if i == |mints| || Follows(mints[i], last) then i else FirstGood(last, mints, i + 1)
  }

  /** How many attempts fail before one succeeds; all of them if none does. */
  function Failures(last: Id, mints: seq<Mint>): (k: nat)
    ensures k <= |mints|
  {
    FirstGood(last, mints, 0)
  }

  /** One call, given the clock reading and what each mint would answer. */
  function NewStep(g: State, now: U64, mints: seq<Mint>): State
    requires |mints| == MAX_MINT_ATTEMPTS
  {
    var base := if now > g.ms then now else g.ms;
    var k := Failures(g.last, mints);
    State(Add64(base, k), now, if k < |mints| then mints[k].id else Succ(g.last))
  }

  /** The k-th mint is the first that answers with a larger id than `last`. */
  ghost predicate FirstLarger(mints: seq<Mint>, last: Id, k: nat) {
    && k < |mints| && mints[k].Minted? && Number(mints[k].id) > Number(last)
    && forall i | 0 <= i < k && mints[i].Minted? :: Number(mints[i].id) <= Number(last)
  }

  lemma {:induction false} FirstGoodIsFirst(last: Id, mints: seq<Mint>, i: nat)
    requires i <= |mints|
    requires forall n | 0 <= n < i && mints[n].Minted? :: Number(mints[n].id) <= Number(last)
    ensures var k := FirstGood(last, mints, i);
            && (k < |mints| ==> FirstLarger(mints, last, k))
            && (k == |mints| ==> forall n | 0 <= n < |mints| && mints[n].Minted? :: Number(mints[n].id) <= Number(last))
    decreases |mints| - i
  {
    if i < |mints| {
      if mints[i].Minted? {
        CompareIsNumeric(mints[i].id, last);
      }
      if !Follows(mints[i], last) {
        FirstGoodIsFirst(last, mints, i + 1);
      }
    }
  }

  /** A call hands out the first larger id that the library mints, and only if all eight
      mints fail to give one the last id plus one. The millisecond is the later of the clock
      and the previous one, and one more for every mint that failed. */
  ghost predicate MintsNext(g: State, now: U64, mints: seq<Mint>, h: State) {
    var base := if now > g.ms then now else g.ms;
    && (forall k: nat | FirstLarger(mints, g.last, k) :: h.last == mints[k].id && h.ms == (base + k) % UINT64)
    && ((forall k | 0 <= k < |mints| && mints[k].Minted? :: Number(mints[k].id) <= Number(g.last)) ==>
          && h.ms == (base + MAX_MINT_ATTEMPTS) % UINT64
          && Number(h.last) == if AllOnes(g.last) then 0 else Number(g.last) + 1)
    && h.seen == now
  }

  lemma StepMintsNext(g: State, now: U64, mints: seq<Mint>)
    requires |mints| == MAX_MINT_ATTEMPTS
    ensures MintsNext(g, now, mints, NewStep(g, now, mints))
  {
    FirstGoodIsFirst(g.last, mints, 0);
    SuccAddsOne(g.last);
    var n := Failures(g.last, mints);
    assert forall k: nat | FirstLarger(mints, g.last, k) :: k == n;
    Add64IsMod(if now > g.ms then now else g.ms, n);
  }

  /** A call returns a larger id exactly when the last one was not all 0xFF. */
  lemma LargerIff(g: State, now: U64, mints: seq<Mint>)
    requires |mints| == MAX_MINT_ATTEMPTS
    ensures Number(NewStep(g, now, mints).last) > Number(g.last) <==> !AllOnes(g.last)
  {
    var next := NewStep(g, now, mints).last;
    SuccAddsOne(g.last);
    NumberBound(g.last);
    NumberBound(next);
    if Failures(g.last, mints) < |mints| {
      CompareIsNumeric(next, g.last);
    }
  }

  /** The millisecond never falls, backward clock steps included, exactly when it does not
      run past 64 bits. */
  lemma MillisecondKeepsIff(g: State, now: U64, mints: seq<Mint>)
    requires |mints| == MAX_MINT_ATTEMPTS
    ensures var base := if now > g.ms then now else g.ms;
            NewStep(g, now, mints).ms >= base <==> base + Failures(g.last, mints) < UINT64
  {
  }

  /** Both edges at once: entropy that fails eight times, on a last id of all 0xFF and the
      last 64-bit millisecond, gives the smallest id and millisecond 7. */
  lemma EdgesWrap(g: State, mints: seq<Mint>)
    requires AllOnes(g.last) && g.ms == UINT64 - 1
    requires |mints| == MAX_MINT_ATTEMPTS && forall i | 0 <= i < |mints| :: mints[i] == Failed
    ensures var h := NewStep(g, 0, mints); Number(h.last) == 0 && h.ms == 7
  {
    NoneGood(g.last, mints, 0);
    SuccAddsOne(g.last);
  }

  lemma {:induction false} NoneGood(last: Id, mints: seq<Mint>, i: nat)
    requires i <= |mints| && forall k | 0 <= k < |mints| :: mints[k] == Failed
    ensures FirstGood(last, mints, i) == |mints|
    decreases |mints| - i
  {
    if i < |mints| {
      NoneGood(last, mints, i + 1);
    }
  }

  ghost predicate Run(gs: seq<State>, nows: seq<U64>, mints: seq<seq<Mint>>) {
    && |gs| == |nows| + 1 == |mints| + 1
    && forall i | 0 <= i < |nows| ::
         |mints[i]| == MAX_MINT_ATTEMPTS && gs[i + 1] == NewStep(gs[i], nows[i], mints[i])
  }

  /** Over any clock history and any entropy behaviour: ids strictly increase as long as
      none of them was all 0xFF. */
  lemma {:induction false} IdsIncrease(gs: seq<State>, nows: seq<U64>, mints: seq<seq<Mint>>, i: nat, j: nat)
    requires Run(gs, nows, mints) && i < j <= |nows|
    requires forall k | i <= k < j :: !AllOnes(gs[k].last)
    ensures Number(gs[i].last) < Number(gs[j].last)
    decreases j - i
  {
    LargerIff(gs[j - 1], nows[j - 1], mints[j - 1]);
    if i < j - 1 {
      IdsIncrease(gs, nows, mints, i, j - 1);
    }
  }

  /** Over any run whose readings stay clear of the 64-bit edge the millisecond is
      monotone and never behind the clock. */
  lemma {:induction false} MillisecondsNeverFall(gs: seq<State>, nows: seq<U64>, mints: seq<seq<Mint>>, i: nat, j: nat)
    requires Run(gs, nows, mints) && i <= j <= |nows|
    requires forall k | 0 <= k < |nows| :: gs[k].ms + MAX_MINT_ATTEMPTS < UINT64
    requires forall k | 0 <= k < |nows| :: nows[k] + MAX_MINT_ATTEMPTS < UINT64
    ensures gs[i].ms <= gs[j].ms
    decreases j - i
  {
    if i < j {
      MillisecondKeepsIff(gs[j - 1], nows[j - 1], mints[j - 1]);
      MillisecondsNeverFall(gs, nows, mints, i, j - 1);
    }
  }

  /** After any call `seen` is that call's reading, so it is the highest reading so far
      exactly when the last reading is. */
  lemma SeenIsHighestIff(gs: seq<State>, nows: seq<U64>, mints: seq<seq<Mint>>, i: nat)
    requires Run(gs, nows, mints) && i < |nows|
    ensures gs[i + 1].seen == nows[i]
    ensures (forall k | 0 <= k <= i :: nows[k] <= gs[i + 1].seen) <==> (forall k | 0 <= k <= i :: nows[k] <= nows[i])
  {
  }

  /** Readings 5 and then 3 leave `seen` at 3, below the highest one. */
  lemma SeenFallsBack(g: State, mints: seq<Mint>) returns (gs: seq<State>, nows: seq<U64>)
    requires |mints| == MAX_MINT_ATTEMPTS
    ensures Run(gs, nows, [mints, mints]) && gs[0] == g && nows == [5, 3] && gs[2].seen < nows[0]
  {
    var g1 := NewStep(g, 5, mints);
    gs, nows := [g, g1, NewStep(g1, 3, mints)], [5, 3];
  }

  class Gen {
    var ms: U64
    var seen: U64
    var last: Id

    ghost function View(): State
      reads this
    {
      State(ms, seen, last)
    }

    constructor ()
      ensures ms == 0 && seen == 0 && last == seq(16, _ => 0)
    {
      ms, seen, last := 0, 0, seq(16, _ => 0);
    }

    /** Mints the next id; reports a clock reading below the previous one. */
    method New(now: U64, mints: seq<Mint>) returns (u: Id, regressed: bool)
      requires |mints| == MAX_MINT_ATTEMPTS
      modifies this
      ensures View() == NewStep(old(View()), now, mints) && u == last
      ensures MintsNext(old(View()), now, mints, View())
      ensures regressed <==> now < old(seen)
    {
      regressed := now < seen;
      if now != seen {
        seen := now;
      }
      if now > ms {
        ms := now;
      }
      var attempt := 0;
      ghost var base := ms;
      while attempt < MAX_MINT_ATTEMPTS
        invariant 0 <= attempt <= MAX_MINT_ATTEMPTS && seen == now && last == old(last)
        invariant Failures(last, mints) == FirstGood(last, mints, attempt)
        invariant ms == Add64(base, attempt)
      {
        if Follows(mints[attempt], last) {
          last := mints[attempt].id;
          StepMintsNext(old(View()), now, mints);
          return last, regressed;
        }
        ms := Add64(ms, 1);
        attempt := attempt + 1;
      }
      u := Increment(last);
      last := u;
      StepMintsNext(old(View()), now, mints);
    }
  }
}
