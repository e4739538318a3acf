/** Database keys: byte strings in lexicographic order. */
module DbKeys {
  import opened Sets

  newtype Byte = x | 0 <= x < 256
  type Key = seq<Byte>

  /** std::lexicographical_compare on bytes. */
  predicate Less(a: Key, b: Key) {
    if b == [] then false
    else if a == [] then true
    else if a[0] != b[0] then a[0] < b[0]
    else Less(a[1..], b[1..])
  }

  lemma {:induction false} LessIrreflexive(a: Key)
    ensures !Less(a, a)
  {
    if a != [] { LessIrreflexive(a[1..]); }
  }

  lemma {:induction false} LessTransitive(a: Key, b: Key, c: Key)
    requires Less(a, b) && Less(b, c)
    ensures Less(a, c)
  {
    if a != [] && a[0] == b[0] == c[0] { LessTransitive(a[1..], b[1..], c[1..]); }
  }

  lemma {:induction false} LessTotal(a: Key, b: Key)
    ensures a == b || Less(a, b) || Less(b, a)
  {
    if a != [] && b != [] && a[0] == b[0] {
      LessTotal(a[1..], b[1..]);
      assert a == [a[0]] + a[1..] && b == [b[0]] + b[1..];
    }
  }

  predicate IsFirst(x: Key, s: set<Key>) {
    x in s && forall y :: y in s ==> !Less(y, x)
  }

  lemma {:induction false} FirstExists(s: set<Key>)
    requires s != {}
    ensures exists x :: IsFirst(x, s)
  {
    hide Less;
    var x := Pick(s);
    var rest := s - {x};
    assert forall e :: e in s ==> e == x || e in rest;
    LessIrreflexive(x);
    if rest == {} {
      assert IsFirst(x, s);
    } else {
      FirstExists(rest);
      var y :| IsFirst(y, rest);
      if Less(x, y) {
        forall z | z in s ensures !Less(z, x) {
          if Less(z, x) { LessTransitive(z, x, y); }
        }
        assert IsFirst(x, s);
      } else {
        assert IsFirst(y, s);
      }
    }
  }

  lemma FirstUnique(s: set<Key>, x: Key, y: Key)
    requires IsFirst(x, s) && IsFirst(y, s)
    ensures x == y
  {
    LessTotal(x, y);
  }

  /** The key an ordered container yields first. */
  function First(s: set<Key>): (x: Key)
    requires s != {}
    ensures IsFirst(x, s)
  {
    FirstExists(s);
    assert forall x, y | IsFirst(x, s) && IsFirst(y, s) :: x == y by {
      forall x, y | IsFirst(x, s) && IsFirst(y, s) ensures x == y { FirstUnique(s, x, y); }
    }
    var x :| IsFirst(x, s);
    x
  }

  ghost predicate Ascending(keys: seq<Key>) {
    forall i, j :: 0 <= i < j < |keys| ==> Less(keys[i], keys[j])
  }
}
