/** Sequences, those without repetition, and the sizes of finite sets. */
module Collections {

  ghost predicate Distinct<T>(s: seq<T>) {
    forall i, j | 0 <= i < j < |s| :: s[i] != s[j]
  }

  lemma {:induction false} SubsetSize<T>(a: set<T>, b: set<T>)
    requires a <= b
    ensures |a| <= |b|
    decreases a
  {
    if a != {} {
      var x :| x in a;
      SubsetSize(a - {x}, b - {x});
    }
  }

  lemma FirstIsMember<T>(s: seq<T>)
    ensures s == [] || s[0] in s
  {
  }

  /** Distinct members of a range are at most as many as the range is long. */
  lemma {:induction false} DistinctInRange(s: seq<nat>, lo: nat, hi: nat)
    requires Distinct(s) && lo <= hi && forall v | v in s :: lo <= v < hi
    ensures |s| <= hi - lo
    decreases hi - lo
  {
    if hi == lo {
      FirstIsMember(s);
    } else if hi - 1 in s {
      var i :| 0 <= i < |s| && s[i] == hi - 1;
      var rest := s[..i] + s[i + 1..];
      forall v | v in rest
        ensures lo <= v < hi - 1
      {
        var j :| 0 <= j < |rest| && rest[j] == v;
        var j' := if j < i then j else j + 1;
        assert v == s[j'] && s[j'] in s && s[j'] != s[i];
      }
      DistinctInRange(rest, lo, hi - 1);
    } else {
      DistinctInRange(s, lo, hi - 1);
    }
  }

  lemma Reassociate<T>(a: seq<T>, b: seq<T>, c: seq<T>)
    ensures a + (b + c) == (a + b) + c
  {
  }
}
