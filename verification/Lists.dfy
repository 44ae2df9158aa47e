/** Plain facts about sequences that several parts of the model share. */
module Lists {
  ghost predicate Distinct<T>(s: seq<T>) {
    forall i, j :: 0 <= i < j < |s| ==> s[i] != s[j]
  }

  function Reversed<T>(s: seq<T>): seq<T> {
    seq(|s|, i requires 0 <= i < |s| => s[|s| - 1 - i])
  }

  lemma HeadIsMember<T>(s: seq<T>)
    ensures s == [] || exists x :: x in s
  {
    assert s == [] || s[0] in s;
  }

  /** A list without repetition is no longer than a set it is drawn from. */
  lemma {:induction false} DistinctFits<T>(s: seq<T>, all: set<T>)
    requires Distinct(s) && forall x :: x in s ==> x in all
    ensures |s| <= |all|
  {
    if s != [] {
      var front := s[..|s| - 1];
      DistinctFits(front, all - {s[|s| - 1]});
    }
  }
}
