/** Iterating a bitmap: members in ascending order. */
module Bitmaps {

  ghost predicate IsMin(s: set<nat>, m: nat) {
    m in s && forall x :: x in s ==> m <= x
  }

  lemma {:induction false} MinExists(s: set<nat>)
    requires s != {}
    ensures exists m :: IsMin(s, m)
  {
    var m :| m in s;
    if s == {m} {
      assert IsMin(s, m);
    } else {
      MinExists(s - {m});
      var r :| IsMin(s - {m}, r);
      assert forall x :: x in s ==> x == m || x in s - {m};
      assert IsMin(s, if r < m then r else m);
    }
  }

  ghost function Min(s: set<nat>): (m: nat)
    requires s != {}
    ensures IsMin(s, m)
  {
    MinExists(s);
    var m: nat :| IsMin(s, m);
    m
  }

  /** The order in which `Each` hands over the members of a bitmap. */
  ghost function Ascending(s: set<nat>): seq<nat> {
    if s == {} then [] else [Min(s)] + Ascending(s - {Min(s)})
  }

  lemma {:induction false} AscendingMembers(s: set<nat>)
    ensures |Ascending(s)| == |s| && forall x :: x in Ascending(s) <==> x in s
  {
    if s != {} {
      AscendingMembers(s - {Min(s)});
    }
  }

  lemma {:induction false} AscendingSorted(s: set<nat>)
    ensures forall i, j :: 0 <= i < j < |Ascending(s)| ==> Ascending(s)[i] < Ascending(s)[j]
  {
    if s != {} {
      var rest := s - {Min(s)};
      AscendingSorted(rest);
      AscendingMembers(rest);
      forall j | 0 < j < |Ascending(s)|
        ensures Min(s) < Ascending(s)[j]
      {
        assert Ascending(s)[j] == Ascending(rest)[j - 1];
        assert Ascending(rest)[j - 1] in rest;
      }
    }
  }
}
