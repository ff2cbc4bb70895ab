/** Small helpers shared by the models. */
module Common {

  datatype Option<+T> = None | Some(value: T)

  /** What a database statement did, as the code that issued it sees it: it took effect and
      said so, it took effect but the reply was an error, or it had no effect and failed. */
  datatype DbReply = Applied | AppliedButErrored | Refused

  /** A set whose members all come from another set is no larger. */
  lemma {:induction false} SubsetIsNoLarger<T>(a: set<T>, b: set<T>)
    requires a <= b
    ensures |a| <= |b|
    decreases a
  {
    if a != {} {
      var x :| x in a;
      SubsetIsNoLarger(a - {x}, b - {x});
    }
  }

  ghost predicate Distinct<T>(s: seq<T>) {
    forall i, j :: 0 <= i < j < |s| ==> s[i] != s[j]
  }

  /** Pigeonhole: a sequence without repetitions is no longer than the set it draws from. */
  lemma {:induction false} DistinctIsNoLonger<T>(s: seq<T>, from: set<T>)
    requires Distinct(s)
    requires forall i :: 0 <= i < |s| ==> s[i] in from
    ensures |s| <= |from|
    decreases |s|
  {
    if s != [] {
      var last := s[|s| - 1];
      var rest := s[..|s| - 1];
      assert forall i :: 0 <= i < |rest| ==> rest[i] == s[i] && s[i] != last;
      DistinctIsNoLonger(rest, from - {last});
    }
  }
}
