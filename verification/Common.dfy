/** Notions that several modules use. */
module Common {
  /** No value twice. */
  ghost predicate Distinct<T>(s: seq<T>) {
    forall i, j :: 0 <= i < j < |s| ==> s[i] != s[j]
  }

  /** A sequence of different members of a set is no longer than the set is large. */
  lemma {:induction false} DistinctBound<T>(s: seq<T>, all: set<T>)
    requires Distinct(s) && forall i :: 0 <= i < |s| ==> s[i] in all
    ensures |s| <= |all|
  {
    if s != [] {
      var k := |s| - 1;
      var init := s[..k];
      forall i | 0 <= i < |init| ensures init[i] in all - {s[k]} {
        assert s[i] != s[k];
      }
      DistinctBound(init, all - {s[k]});
    }
  }

  /** A sequence with all members of a set is no shorter. */
  lemma {:induction false} CoverBound<T>(s: seq<T>, all: set<T>)
    requires forall x :: x in all ==> x in s
    ensures |all| <= |s|
  {
    if s == [] {
      assert all == {};
    } else {
      CoverBound(s[1..], all - {s[0]});
    }
  }

  function Abs(a: int): nat {
    if a < 0 then -a else a
  }
}
