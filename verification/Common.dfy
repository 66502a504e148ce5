/** What several models share: optional values and two facts about finite sets. */
module Common {

  datatype Option<+T> = None | Some(value: T)

  /** A number above every member of a set. */
  lemma AboveAll(s: set<nat>) returns (x: nat)
    ensures forall y | y in s :: y < x
    decreases s
  {
    if s == {} {
      return 0;
    }
    var y :| y in s;
    var rest := AboveAll(s - {y});
    x := if y < rest then rest else y + 1;
    assert s == s - {y} + {y};
  }

  lemma SubsetSize<T>(a: set<T>, b: set<T>)
    requires a <= b
    ensures |a| <= |b|
    decreases a
  {
    if a != {} {
      var x :| x in a;
      SubsetSize(a - {x}, b - {x});
    }
  }
}
