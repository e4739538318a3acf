/** Small facts about finite sets, ordered keys and cardinalities shared by the models. */
module Sets {

  lemma NonEmpty<T>(s: set<T>)
    requires s != {}
    ensures exists x :: x in s
  {
    if forall x :: x !in s { assert false; }
  }

  ghost function Pick<T>(s: set<T>): (x: T)
    requires s != {}
    ensures x in s
  {
    NonEmpty(s);
    var x :| x in s;
    x
  }

  /** Any element, as iterating an unordered container yields it. */
  method PickAny<T>(s: set<T>) returns (x: T)
    requires s != {}
    ensures x in s
  {
    NonEmpty(s);
    x :| x in s;
  }

  // ---------------------------------------------------------------------------------------------
  // Keys in ascending order, as iterating an ordered container yields them

  predicate IsLeast(x: int, s: set<int>) {
    x in s && forall y :: y in s ==> x <= y
  }

  lemma {:induction false} LeastExists(s: set<int>)
    requires s != {}
    ensures exists x :: IsLeast(x, s)
  {
    var x := Pick(s);
    var rest := s - {x};
    assert forall e :: e in s ==> e == x || e in rest;
    if rest == {} {
      assert IsLeast(x, s);
    } else {
      LeastExists(rest);
      var y :| IsLeast(y, rest);
      assert IsLeast(if x <= y then x else y, s);
    }
  }

  ghost function Ascending(s: set<int>): seq<int> {
    if s == {} then []
    else
      LeastExists(s);
      var x :| IsLeast(x, s);
      [x] + Ascending(s - {x})
  }

  lemma AscendingStep(s: set<int>, x: int)
    requires IsLeast(x, s)
    ensures Ascending(s) == [x] + Ascending(s - {x})
  {
  }

  lemma {:induction false} AscendingWithin(s: set<int>)
    ensures forall i :: 0 <= i < |Ascending(s)| ==> Ascending(s)[i] in s
    ensures forall x :: x in s ==> x in Ascending(s)
  {
    if s != {} {
      LeastExists(s);
      var x :| IsLeast(x, s);
      AscendingStep(s, x);
      AscendingWithin(s - {x});
      forall i | 0 <= i < |Ascending(s)| ensures Ascending(s)[i] in s {
        if i > 0 { assert Ascending(s)[i] == Ascending(s - {x})[i - 1]; }
      }
    }
  }

  /** The first key an ordered container yields. */
  method First(s: set<int>) returns (x: int)
    requires s != {}
    ensures IsLeast(x, s)
    ensures Ascending(s) == [x] + Ascending(s - {x})
  {
    LeastExists(s);
    x :| IsLeast(x, s);
    AscendingStep(s, x);
  }

  function Interval(lo: int, hi: int): seq<int>
    decreases hi - lo
  {
    if lo >= hi then [] else [lo] + Interval(lo + 1, hi)
  }

  lemma {:induction false} AscendingOfInterval(s: set<int>, lo: int, hi: int)
    requires forall g :: g in s <==> lo <= g < hi
    ensures Ascending(s) == Interval(lo, hi)
    decreases hi - lo
  {
    if lo >= hi {
      assert forall g :: g !in s;
      assert s == {};
    } else {
      assert IsLeast(lo, s);
      AscendingStep(s, lo);
      AscendingOfInterval(s - {lo}, lo + 1, hi);
    }
  }
}
