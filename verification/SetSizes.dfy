/** The sizes of sets, and of the members of a sequence. */
module SetSizes {

  lemma SubsetSize<T>(a: set<T>, b: set<T>)
    requires a <= b
    ensures |a| <= |b| && (a != b ==> |a| < |b|)
  {
    assert b == a + (b - a);
    if b - a == {} {
      assert a == b;
    }
  }

  ghost predicate NoRepeats(s: seq<nat>) {
    forall i, j :: 0 <= i < j < |s| ==> s[i] != s[j]
  }

  ghost function Members(s: seq<nat>): set<nat> {
    set x | x in s
  }

  lemma {:induction false} MembersSize(s: seq<nat>)
    ensures |Members(s)| <= |s| && (NoRepeats(s) ==> |Members(s)| == |s|)
  {
    if s == [] {
      assert Members(s) == {};
    } else {
      MembersSize(s[1..]);
      assert Members(s) == {s[0]} + Members(s[1..]);
    }
  }

  lemma Pigeonhole(s: seq<nat>, r: seq<nat>)
    requires NoRepeats(s) && forall i :: 0 <= i < |s| ==> s[i] in r
    ensures |s| <= |r|
  {
    MembersSize(s);
    MembersSize(r);
    SubsetSize(Members(s), Members(r));
  }
}
