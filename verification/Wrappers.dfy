/** Small types shared by the modules of this project. */
module Wrappers {

  datatype Option<+T> = None | Some(value: T)

  datatype Result<+T, +E> = Success(value: T) | Failure(error: E)

  type Byte = b: int | 0 <= b < 256

  type Bytes = seq<Byte>

  function Elements<T(==)>(s: seq<T>): set<T> {
    set x | x in s
  }

  predicate Least(s: set<nat>, x: nat) {
    x in s && forall y :: y in s ==> x <= y
  }

  lemma LeastExists(s: set<nat>)
    requires s != {}
    ensures exists x :: Least(s, x)
  {
    var x :| x in s;
    while exists y :: y in s && y < x
      invariant x in s
      decreases x
    {
      var y :| y in s && y < x;
      x := y;
    }
    assert Least(s, x);
  }

  lemma SubSlice<T>(s: seq<T>, low: nat, length: nat, from: nat, to: nat)
    requires low + length <= |s| && from <= to <= length
    ensures s[low..low + length][from..to] == s[low + from..low + to]
  {
    var u, v := s[low..low + length][from..to], s[low + from..low + to];
    assert |u| == |v| && forall k :: 0 <= k < |u| ==> u[k] == v[k];
  }

  lemma {:induction false} SubsetSize<T>(a: set<T>, b: set<T>)
    requires a <= b
    ensures |a| <= |b|
  {
    if a != {} {
      var x :| x in a;
      SubsetSize(a - {x}, b - {x});
    }
  }
}
