/** Converging a lowered max_ack_pending: which rows go, and where the cursor rewinds. */
module Shrink {
  import opened Delivery
  import opened Ordered
  import opened Broker

  /** Deleting the descending-LIMIT rows and rewinding to the ascending-OFFSET seq is
      what `ShrinkTo` describes. */
  lemma QueriesAgree(rows: map<int, Row>, cursor: int, bound: int, dropped: nat, gone: set<int>)
    requires |rows| > bound && 0 < dropped <= |Droppable(rows)| && IsTop(gone, Droppable(rows), dropped)
    requires dropped == |rows| - bound || dropped == |Droppable(rows)| < |rows| - bound
    ensures var d := Droppable(rows);
            Shrunk(rows - gone, AtOffset(d, |d| - dropped), |rows| - bound - dropped)
            == ShrinkTo(rows, cursor, bound)
  {
    OffsetIsLowestOfTop(gone, Droppable(rows), dropped);
  }

  /** The deliveries of one consumer and its cursor, as the update command edits them. */
  class ConsumerTable {
    var rows: map<int, Row>
    var cursor: int

    method ShrinkDeliveries(bound: int) returns (overshoot: int)
      modifies this
      ensures Shrunk(rows, cursor, overshoot) == ShrinkTo(old(rows), old(cursor), bound)
    {
      var pending := |rows|;
      if pending <= bound {
        return 0;
      }
      var excess := pending - bound;
      var candidates := Droppable(rows);
      var droppable := |candidates|;
      var dropped := excess;
      if dropped > droppable {
        dropped := droppable;
      }
      if dropped == 0 {
        return excess;
      }
      var ascending := SelectAscending(candidates);
      var lowest := ascending[droppable - dropped];
      var gone := SelectTop(candidates, dropped);
      QueriesAgree(rows, cursor, bound, dropped, gone);
      rows := rows - gone;
      cursor := lowest;
      overshoot := excess - dropped;
    }
  }

  /** Removing the `dropped` highest droppable rows, whose lowest seq is `lowest`. */
  lemma CutAt(rows: map<int, Row>, lowest: int, dropped: nat)
    requires |AtOrAbove(Droppable(rows), lowest)| == dropped <= |Droppable(rows)|
    ensures var left := rows - AtOrAbove(Droppable(rows), lowest);
            && |left| == |rows| - dropped
            && (forall q | q in Droppable(left) :: q < lowest)
            && (dropped == |Droppable(rows)| ==> Droppable(left) == {})
  {
    var d := Droppable(rows);
    var gone := AtOrAbove(d, lowest);
    var left := rows - gone;
    assert left.Keys == rows.Keys - gone && gone <= rows.Keys;
    assert |left.Keys| == |rows.Keys| - |gone|;
    if dropped == |d| {
      assert |d - gone| == 0;
      assert Droppable(left) <= d - gone;
    }
  }

  /** The contract of a shrink: it removes as many undelivered rows as it needs or can,
      highest seq first; the cursor moves to the lowest of them; what stays above the
      bound is only delivered work; and every other row is untouched. */
  ghost predicate Exact(rows: map<int, Row>, cursor: int, bound: int, r: Shrunk) {
    && (forall q | q in r.rows :: q in rows && r.rows[q] == rows[q])
    && (forall q | q in rows && q !in r.rows :: q in Droppable(rows) && r.cursor <= q)
    && (|r.rows| < |rows| ==> r.cursor in rows && r.cursor !in r.rows)
    && (|r.rows| < |rows| ==> forall q | q in Droppable(r.rows) :: q < r.cursor)
    && (|r.rows| >= |rows| ==> r.rows == rows && r.cursor == cursor)
    && r.overshoot == (if |r.rows| > bound then |r.rows| - bound else 0)
    && (|r.rows| > bound ==> Droppable(r.rows) == {})
    && (|rows| > bound ==> |r.rows| >= bound)
  }

  /** Dropping the rows from `lowest` up, one of which it is. */
  function Cut(rows: map<int, Row>, lowest: int, overshoot: int): Shrunk {
    Shrunk(rows - AtOrAbove(Droppable(rows), lowest), lowest, overshoot)
  }

  lemma CutIsExact(rows: map<int, Row>, cursor: int, bound: int, lowest: int, dropped: nat)
    requires |AtOrAbove(Droppable(rows), lowest)| == dropped <= |Droppable(rows)|
    requires lowest in Droppable(rows)
    requires 0 < dropped <= |rows| - bound
    requires dropped == |rows| - bound || dropped == |Droppable(rows)|
    ensures Exact(rows, cursor, bound, Cut(rows, lowest, |rows| - bound - dropped))
  {
    CutAt(rows, lowest, dropped);
  }

  lemma NothingDropped(rows: map<int, Row>, cursor: int, bound: int)
    requires |rows| <= bound || |Droppable(rows)| == 0
    ensures Exact(rows, cursor, bound, Shrunk(rows, cursor, if |rows| <= bound then 0 else |rows| - bound))
  {
  }

  lemma ShrinkExact(rows: map<int, Row>, cursor: int, bound: int) returns (r: Shrunk)
    requires bound >= 0
    ensures r == ShrinkTo(rows, cursor, bound) && Exact(rows, cursor, bound, r)
  {
    var droppable := |Droppable(rows)|;
    var excess := |rows| - bound;
    if excess <= 0 || droppable == 0 {
      NothingDropped(rows, cursor, bound);
      r := Shrunk(rows, cursor, if |rows| <= bound then 0 else |rows| - bound);
    } else {
      var dropped := if excess > droppable then droppable else excess;
      var lowest := RewindTarget(rows, dropped);
      CutIsExact(rows, cursor, bound, lowest, dropped);
      r := Cut(rows, lowest, excess - dropped);
    }
  }
}
