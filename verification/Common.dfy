/** What every module needs: optional values and two facts about finite sets. */
module Common {

  datatype Option<+T> = None | Some(value: T)

  lemma Member<T>(S: set<T>) returns (x: T)
    requires S != {}
    ensures x in S
  {
    if forall y :: y !in S {
      assert false;
    }
    x :| x in S;
  }

  lemma SubsetSize<T>(a: set<T>, b: set<T>)
    requires a <= b
    ensures |a| <= |b|
    ensures |a| == |b| ==> a == b
  {
    assert b == a + (b - a);
  }
}
