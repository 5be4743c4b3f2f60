/** The stream-name typo check's edit distance: the two-row table computes the recursive
    distance, which is the length of a shortest script of single-character edits. */
module EditDistance {

  function Min(x: nat, y: nat): nat {
    if x < y then x else y
  }

  function Cost(x: char, y: char): nat {
    if x == y then 0 else 1
  }

  function Init(s: string): string
    requires s != []
  {
    s[..|s| - 1]
  }

  function Last(s: string): char
    requires s != []
  {
    s[|s| - 1]
  }

  function Dist(a: string, b: string): nat
    decreases |a| + |b|
  {
    if a == [] then |b|
    else if b == [] then |a|
    else Min(Dist(Init(a), b) + 1, Min(Dist(a, Init(b)) + 1, Dist(Init(a), Init(b)) + Cost(Last(a), Last(b))))
  }

  // ---- the loop ----------------------------------------------------------------------

  /** The table's cell for the first i characters of `a` and the first j of `b`. */
  function Cell(a: string, b: string, i: nat, j: nat): nat
    requires i <= |a| && j <= |b|
  {
    if i == 0 then j
    else if j == 0 then i
    else Min(Cell(a, b, i - 1, j) + 1,
             Min(Cell(a, b, i, j - 1) + 1, Cell(a, b, i - 1, j - 1) + Cost(a[i - 1], b[j - 1])))
  }

  lemma {:induction false} CellIsDist(a: string, b: string, x: string, y: string)
    requires x <= a && y <= b
    ensures Cell(a, b, |x|, |y|) == Dist(x, y)
    decreases |x| + |y|
  {
    if x != [] && y != [] {
      CellIsDist(a, b, Init(x), y);
      CellIsDist(a, b, x, Init(y));
      CellIsDist(a, b, Init(x), Init(y));
    }
  }

  /** The first n entries of a row. */
  ghost predicate RowIs(row: seq<nat>, n: nat, a: string, b: string, i: nat) {
    n <= |b| + 1 && i <= |a| && n <= |row| && forall k | 0 <= k < n :: row[k] == Cell(a, b, i, k)
  }

  /** The inner loop: one row of the table from the row above it. */
  method FillRow(a: string, b: string, i: nat, prev: array<nat>, cur: array<nat>)
    requires 1 <= i <= |a| && prev.Length == cur.Length == |b| + 1 && prev != cur
    requires RowIs(prev[..], |b| + 1, a, b, i - 1)
    modifies cur
    ensures RowIs(cur[..], |b| + 1, a, b, i)
  {
    cur[0] := i;
    for j := 1 to |b| + 1
      invariant RowIs(cur[..], j, a, b, i)
    {
      var cost := 1;
      if a[i - 1] == b[j - 1] {
        cost := 0;
      }
      cur[j] := Min(prev[j] + 1, Min(cur[j - 1] + 1, prev[j - 1] + cost));
    }
  }

  method Levenshtein(a: string, b: string) returns (d: nat)
    ensures d == Dist(a, b)
  {
    var prev, cur := new nat[|b| + 1], new nat[|b| + 1];
    for j := 0 to |b| + 1
      invariant RowIs(prev[..], j, a, b, 0)
    {
      prev[j] := j;
    }
    for i := 1 to |a| + 1
      invariant prev.Length == cur.Length == |b| + 1 && prev != cur && fresh(prev) && fresh(cur)
      invariant RowIs(prev[..], |b| + 1, a, b, i - 1)
    {
      FillRow(a, b, i, prev, cur);
      prev, cur := cur, prev;
    }
    d := prev[|b|];
    CellIsDist(a, b, a, b);
  }

  // ---- a metric ----------------------------------------------------------------------

  lemma {:induction false} Symmetric(a: string, b: string)
    ensures Dist(a, b) == Dist(b, a)
    decreases |a| + |b|
  {
    if a != [] && b != [] {
      Symmetric(Init(a), b);
      Symmetric(a, Init(b));
      Symmetric(Init(a), Init(b));
    }
  }

  lemma {:induction false} ZeroIffEqual(a: string, b: string)
    ensures Dist(a, b) == 0 <==> a == b
    decreases |a| + |b|
  {
    if a != [] && b != [] {
      ZeroIffEqual(Init(a), Init(b));
      assert a == Init(a) + [Last(a)] && b == Init(b) + [Last(b)];
    }
  }

  /** The distance lies between the difference and the larger of the lengths. */
  lemma {:induction false} LengthBounds(a: string, b: string)
    ensures |a| <= |b| + Dist(a, b) && |b| <= |a| + Dist(a, b)
    ensures Dist(a, b) <= |a| || Dist(a, b) <= |b|
    decreases |a| + |b|
  {
    if a != [] && b != [] {
      LengthBounds(Init(a), b);
      LengthBounds(a, Init(b));
      LengthBounds(Init(a), Init(b));
    }
  }

  lemma {:induction false} Triangle(a: string, b: string, c: string)
    ensures Dist(a, c) <= Dist(a, b) + Dist(b, c)
    decreases |a| + |b| + |c|
  {
    if a == [] || b == [] || c == [] {
      LengthBounds(a, b);
      LengthBounds(b, c);
      LengthBounds(a, c);
    } else {
      var a1, b1, c1 := Init(a), Init(b), Init(c);
      if Dist(a, b) == Dist(a1, b) + 1 {
        Triangle(a1, b, c);
      } else if Dist(b, c) == Dist(b, c1) + 1 {
        Triangle(a, b, c1);
      } else if Dist(a, b) == Dist(a, b1) + 1 {
        if Dist(b, c) == Dist(b1, c) + 1 {
          Triangle(a, b1, c);
        } else {
          Triangle(a, b1, c1);
        }
      } else {
        if Dist(b, c) == Dist(b1, c) + 1 {
          Triangle(a1, b1, c);
        } else {
          Triangle(a1, b1, c1);
        }
      }
    }
  }

  // ---- scripts -----------------------------------------------------------------------

  datatype Edit = Insert(at: nat, c: char) | Delete(at: nat) | Substitute(at: nat, c: char)

  predicate Applies(s: string, e: Edit) {
    if e.Insert? then e.at <= |s| else e.at < |s|
  }

  function Apply(s: string, e: Edit): string
    requires Applies(s, e)
  {
    match e
    case Insert(at, c) => s[..at] + [c] + s[at..]
    case Delete(at) => s[..at] + s[at + 1..]
    case Substitute(at, c) => s[..at] + [c] + s[at + 1..]
  }

  /** The script turns `a` into `b`. */
  predicate Turns(a: string, es: seq<Edit>, b: string)
    decreases |es|
  {
    if es == [] then a == b
    else Applies(a, es[0]) && Turns(Apply(a, es[0]), es[1..], b)
  }

  lemma {:induction false} CommonSuffix(a: string, b: string, t: string)
    ensures Dist(a + t, b + t) <= Dist(a, b)
    decreases |t|
  {
    if t == [] {
      assert a + t == a && b + t == b;
    } else {
      CommonSuffix(a, b, Init(t));
      assert Init(a + t) == a + Init(t) && Init(b + t) == b + Init(t);
    }
  }

  lemma InsertOne(p: string, c: char, t: string, s: string, u: string)
    requires s == p + t && u == p + [c] + t
    ensures Dist(s, u) <= 1 && Dist(u, s) <= 1
  {
    ZeroIffEqual(p, p);
    assert Init(p + [c]) == p;
    CommonSuffix(p, p + [c], t);
    CommonSuffix(p + [c], p, t);
  }

  lemma SubstituteOne(p: string, c: char, d: char, t: string, s: string, u: string)
    requires s == p + [c] + t && u == p + [d] + t
    ensures Dist(s, u) <= 1
  {
    ZeroIffEqual(p, p);
    assert Init(p + [c]) == p && Init(p + [d]) == p;
    CommonSuffix(p + [c], p + [d], t);
  }

  /** One edit moves a string by at most one. */
  lemma OneEdit(s: string, e: Edit, u: string)
    requires Applies(s, e) && u == Apply(s, e)
    ensures Dist(s, u) <= 1
  {
    match e
    case Insert(at, c) => InsertOne(s[..at], c, s[at..], s, u);
    case Delete(at) => InsertOne(s[..at], s[at], s[at + 1..], u, s);
    case Substitute(at, c) => SubstituteOne(s[..at], s[at], c, s[at + 1..], s, u);
  }

  /** No script is shorter than the distance. */
  lemma {:induction false} NoShorterScript(a: string, es: seq<Edit>, b: string)
    requires Turns(a, es, b)
    ensures Dist(a, b) <= |es|
    decreases |es|
  {
    if es == [] {
      ZeroIffEqual(a, b);
    } else {
      var s := Apply(a, es[0]);
      OneEdit(a, es[0], s);
      NoShorterScript(s, es[1..], b);
      Triangle(a, s, b);
    }
  }

  lemma {:induction false} TurnsThen(a: string, es: seq<Edit>, b: string, e: Edit)
    requires Turns(a, es, b) && Applies(b, e)
    ensures Turns(a, es + [e], Apply(b, e))
    decreases |es|
  {
    if es != [] {
      TurnsThen(Apply(a, es[0]), es[1..], b, e);
      assert (es + [e])[1..] == es[1..] + [e];
    }
  }

  lemma ApplyBefore(a: string, e: Edit, c: char)
    requires Applies(a, e)
    ensures Apply(a + [c], e) == Apply(a, e) + [c]
  {
  }

  /** A script works the same in front of one more character. */
  lemma {:induction false} TurnsBefore(a: string, es: seq<Edit>, b: string, c: char)
    requires Turns(a, es, b)
    ensures Turns(a + [c], es, b + [c])
    decreases |es|
  {
    if es != [] {
      ApplyBefore(a, es[0], c);
      TurnsBefore(Apply(a, es[0]), es[1..], b, c);
    }
  }

  lemma DeleteLast(a: string, rest: seq<Edit>, b: string) returns (es: seq<Edit>)
    requires a != [] && Turns(Init(a), rest, b)
    ensures Turns(a, es, b) && |es| == |rest| + 1
  {
    var e := Delete(|a| - 1);
    assert Apply(a, e) == Init(a);
    es := [e] + rest;
    assert es[1..] == rest;
  }

  lemma InsertLast(a: string, first: seq<Edit>, b: string) returns (es: seq<Edit>)
    requires b != [] && Turns(a, first, Init(b))
    ensures Turns(a, es, b) && |es| == |first| + 1
  {
    var e := Insert(|b| - 1, Last(b));
    assert Apply(Init(b), e) == b;
    TurnsThen(a, first, Init(b), e);
    es := first + [e];
  }

  lemma Rejoin(s: string)
    requires s != []
    ensures Init(s) + [Last(s)] == s
  {
  }

  lemma KeepLast(a: string, es: seq<Edit>, b: string, c: char, longA: string, longB: string)
    requires Turns(a, es, b) && longA == a + [c] && longB == b + [c]
    ensures Turns(longA, es, longB)
  {
    TurnsBefore(a, es, b, c);
  }

  lemma SubstituteLast(a: string, core: seq<Edit>, b: string, c: char) returns (es: seq<Edit>)
    requires a != [] && Turns(Init(a) + [c], core, b)
    ensures Turns(a, es, b) && |es| == |core| + 1
  {
    var e := Substitute(|a| - 1, c);
    assert Apply(a, e) == Init(a) + [c];
    es := [e] + core;
    assert es[1..] == core;
  }

  lemma MatchLast(a: string, core: seq<Edit>, b: string) returns (es: seq<Edit>)
    requires a != [] && b != [] && Turns(Init(a), core, Init(b))
    ensures Turns(a, es, b) && |es| == |core| + Cost(Last(a), Last(b))
  {
    var c := Last(b);
    Rejoin(a);
    Rejoin(b);
    if Last(a) == c {
      KeepLast(Init(a), core, Init(b), c, a, b);
      es := core;
    } else {
      KeepLast(Init(a), core, Init(b), c, Init(a) + [c], b);
      es := SubstituteLast(a, core, b, c);
    }
  }

  datatype LastMove = Drop | Add | Match

  /** Which of the three ways the distance is attained. */
  lemma LastMoveOf(a: string, b: string) returns (m: LastMove)
    requires a != [] || b != []
    ensures m == Drop ==> a != [] && Dist(a, b) == Dist(Init(a), b) + 1
    ensures m == Add ==> b != [] && Dist(a, b) == Dist(a, Init(b)) + 1
    ensures m == Match ==> a != [] && b != [] && Dist(a, b) == Dist(Init(a), Init(b)) + Cost(Last(a), Last(b))
  {
    m := if b == [] then Drop
         else if a == [] then Add
         else if Dist(a, b) == Dist(Init(a), b) + 1 then Drop
         else if Dist(a, b) == Dist(a, Init(b)) + 1 then Add
         else Match;
  }

  /** And some script is exactly that short. */
  lemma {:induction false} ShortestScript(a: string, b: string) returns (es: seq<Edit>)
    ensures Turns(a, es, b) && |es| == Dist(a, b)
    decreases |a| + |b|
  {
    if a == [] && b == [] {
      es := [];
      return;
    }
    var m := LastMoveOf(a, b);
    match m
    case Drop =>
      var rest := ShortestScript(Init(a), b);
      es := DeleteLast(a, rest, b);
    case Add =>
      var first := ShortestScript(a, Init(b));
      es := InsertLast(a, first, b);
    case Match =>
      var core := ShortestScript(Init(a), Init(b));
      es := MatchLast(a, core, b);
  }
}
