/** Finite sets of sequence numbers listed in order: what an `ORDER BY seq` query
    over a table with a unique seq column returns. */
module Ordered {
  import opened Common

  ghost predicate Increasing(s: seq<int>) {
    forall i, j | 0 <= i < j < |s| :: s[i] < s[j]
  }

  /** Every listed element belongs to `S`. */
  predicate Within(s: seq<int>, S: set<int>) {
    forall i | 0 <= i < |s| :: s[i] in S
  }

  function Elements(s: seq<int>): set<int> {
    set x | x in s
  }

  lemma {:induction false} MinExists(S: set<int>)
    requires S != {}
    ensures exists m :: m in S && forall x | x in S :: m <= x
    decreases |S|
  {
    var a := Member(S);
    if S != {a} {
      var T := S - {a};
      MinExists(T);
      var b :| b in T && forall x | x in T :: b <= x;
      var m := if a <= b then a else b;
      assert forall x | x in S :: x == a || x in T;
      assert m in S && forall x | x in S :: m <= x;
    }
  }

  /** `s` lists the elements of `S`, smallest first, each once. */
  ghost predicate Lists(s: seq<int>, S: set<int>) {
    Increasing(s) && |s| == |S| && Within(s, S) && Elements(s) == S
  }

  lemma ConsElements(m: int, rest: seq<int>)
    ensures Elements([m] + rest) == {m} + Elements(rest)
  {
  }

  lemma ConsIncreasing(m: int, rest: seq<int>)
    requires Increasing(rest) && forall i | 0 <= i < |rest| :: m < rest[i]
    ensures Increasing([m] + rest)
  {
  }

  lemma ListsCons(m: int, rest: seq<int>, S: set<int>)
    requires m in S && (forall x | x in S :: m <= x) && Lists(rest, S - {m})
    ensures Lists([m] + rest, S)
  {
    ConsElements(m, rest);
    assert {m} + (S - {m}) == S;
    assert forall i | 0 <= i < |rest| :: rest[i] in S - {m};
    ConsIncreasing(m, rest);
  }

  lemma {:induction false} ListingExists(S: set<int>)
    ensures exists s :: Lists(s, S)
    decreases |S|
  {
    if S == {} {
      assert Lists([], S);
    } else {
      MinExists(S);
      var m :| m in S && forall x | x in S :: m <= x;
      ListingExists(S - {m});
      var rest :| Lists(rest, S - {m});
      ListsCons(m, rest, S);
    }
  }

  /** The result of `ORDER BY seq ASC` over the rows whose seqs are `S`. */
  ghost function Ascending(S: set<int>): (s: seq<int>)
    ensures Lists(s, S)
  {
    ListingExists(S);
    var s :| Lists(s, S);
    s
  }

  lemma TailElements(s: seq<int>)
    requires Increasing(s) && |s| > 0
    ensures Elements(s[1..]) == Elements(s) - {s[0]}
  {
    ConsElements(s[0], s[1..]);
    assert s == [s[0]] + s[1..];
  }

  /** A set has one ascending listing. */
  lemma {:induction false} ListingUnique(s: seq<int>, t: seq<int>)
    requires Increasing(s) && Increasing(t) && |s| == |t| && Elements(s) == Elements(t)
    ensures s == t
  {
    if |s| > 0 {
      assert s[0] in Elements(t) && t[0] in Elements(s);
      assert s[0] == t[0];
      TailElements(s);
      TailElements(t);
      ListingUnique(s[1..], t[1..]);
      assert s == [s[0]] + s[1..] && t == [t[0]] + t[1..];
    }
  }

  /** Runs the query: the smallest seq, then the rest. */
  method SelectAscending(S: set<int>) returns (s: seq<int>)
    ensures s == Ascending(S)
    decreases |S|
  {
    if S == {} {
      s := [];
    } else {
      MinExists(S);
      var m :| m in S && forall x | x in S :: m <= x;
      var rest := SelectAscending(S - {m});
      ListsCons(m, rest, S);
      s := [m] + rest;
    }
    ListingUnique(s, Ascending(S));
  }

  /** Where the ascending listing of `S` holds `x`. */
  lemma IndexIn(S: set<int>, x: int) returns (i: nat)
    requires x in S
    ensures i < |S| && Ascending(S)[i] == x
  {
    var s := Ascending(S);
    assert x in Elements(s);
    i :| 0 <= i < |s| && s[i] == x;
  }

  /** From offset `i` on, an increasing listing holds its elements at or above `s[i]`. */
  lemma SuffixIsAbove(s: seq<int>, i: nat, x: int)
    requires Increasing(s) && i < |s|
    ensures x in s[i..] <==> x in s && x >= s[i]
  {
    if x in s && x >= s[i] {
      var k :| 0 <= k < |s| && s[k] == x;
      assert s[i..][k - i] == x;
    }
  }

  lemma {:induction false} CountDistinct(s: seq<int>)
    requires Increasing(s)
    ensures |Elements(s)| == |s|
  {
    if |s| > 0 {
      CountDistinct(s[1..]);
      assert s == [s[0]] + s[1..];
      ConsElements(s[0], s[1..]);
    }
  }

  /** The elements of `S` at or above `x`. */
  function AtOrAbove(S: set<int>, x: int): set<int> {
    set y | y in S && y >= x
  }

  /** From offset `|s| - k` on, an increasing listing holds exactly `k` elements. */
  lemma CountAbove(s: seq<int>, S: set<int>, k: nat)
    requires Increasing(s) && 0 < k <= |s| && Elements(s) == S
    ensures |AtOrAbove(S, s[|s| - k])| == k
    ensures s[|s| - k] in S
  {
    var i := |s| - k;
    CountDistinct(s[i..]);
    forall x ensures x in AtOrAbove(S, s[i]) <==> x in s[i..] {
      SuffixIsAbove(s, i, x);
    }
    assert AtOrAbove(S, s[i]) == Elements(s[i..]);
    assert s[i] in s;
  }

  /** `ORDER BY seq ASC LIMIT 1 OFFSET i`. */
  ghost function AtOffset(S: set<int>, i: nat): int
    requires i < |S|
  {
    Ascending(S)[i]
  }

  /** `T` is what `ORDER BY seq DESC LIMIT k` selects from `S`: its `k` highest. */
  ghost predicate IsTop(T: set<int>, S: set<int>, k: nat) {
    T <= S && |T| == k && forall x, y | x in T && y in S && y !in T :: y < x
  }

  /** Two selections of the `k` highest agree. */
  lemma TopUnique(T: set<int>, U: set<int>, S: set<int>, k: nat)
    requires IsTop(T, S, k) && IsTop(U, S, k)
    ensures T <= U
  {
    forall x | x in T ensures x in U {
      if x !in U {
        assert |U - T| == |U| - |U * T| && |T - U| == |T| - |U * T|;
        assert |T - U| > 0 by { assert x in T - U; }
        assert U - T != {};
        var x := Member(U - T);
        assert false;
      }
    }
  }

  /** The ascending-OFFSET lookup finds the minimum of the descending-LIMIT set, which
      is everything from there up. */
  lemma OffsetIsLowestOfTop(T: set<int>, S: set<int>, k: nat)
    requires 0 < k <= |S| && IsTop(T, S, k)
    ensures T == AtOrAbove(S, AtOffset(S, |S| - k)) && AtOffset(S, |S| - k) in T
  {
    CountAbove(Ascending(S), S, k);
    var U := AtOrAbove(S, AtOffset(S, |S| - k));
    TopUnique(T, U, S, k);
    TopUnique(U, T, S, k);
  }

  /** Runs `ORDER BY seq DESC LIMIT k` by repeatedly taking the largest remaining seq. */
  method SelectTop(S: set<int>, k: nat) returns (T: set<int>)
    requires k <= |S|
    ensures IsTop(T, S, k)
  {
    T := {};
    for i := 0 to k
      invariant IsTop(T, S, i)
    {
      assert |S - T| == |S| - |T|;
      MaxExists(S - T);
      var m :| m in S - T && forall x | x in S - T :: x <= m;
      forall x, y | x in T + {m} && y in S && y !in T + {m} ensures y < x {
        assert y in S - T;
      }
      T := T + {m};
    }
  }

  lemma {:induction false} MaxExists(S: set<int>)
    requires |S| > 0
    ensures exists m :: m in S && forall x | x in S :: x <= m
    decreases |S|
  {
    var a := Member(S);
    if S != {a} {
      var T := S - {a};
      MaxExists(T);
      var b :| b in T && forall x | x in T :: x <= b;
      var m := if a <= b then b else a;
      assert forall x | x in S :: x == a || x in T;
      assert m in S && forall x | x in S :: x <= m;
    }
  }
}
