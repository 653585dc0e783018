/** Walking over the members of a set. */
module Sets {
  /** The members of a set, in some order. */
  method Enumerate<T(==)>(s: set<T>) returns (order: seq<T>)
    ensures forall x :: x in order <==> x in s
    ensures forall i, j :: 0 <= i < j < |order| ==> order[i] != order[j]
  {
    var rest := s;
    order := [];
    while rest != {}
      invariant rest <= s
      invariant forall x :: x in order <==> x in s - rest
      invariant forall i, j :: 0 <= i < j < |order| ==> order[i] != order[j]
      decreases rest
    {
      var x :| x in rest;
      forall i | 0 <= i < |order| ensures order[i] != x {
        assert order[i] in order;
      }
      rest := rest - {x};
      order := order + [x];
    }
  }
}
