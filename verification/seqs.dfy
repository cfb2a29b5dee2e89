/** Small facts about sequences: first and last occurrences, distinctness,
    and order-preserving removal of repeats. */
module Seqs {

  predicate Distinct<T(==)>(s: seq<T>) {
    forall i, j | 0 <= i < j < |s| :: s[i] != s[j]
  }

  /** The position of the first occurrence of `x` in `s`. */
  function FirstIndex<T(==)>(s: seq<T>, x: T): (i: nat)
    requires x in s
    ensures i < |s| && s[i] == x
    ensures forall j | 0 <= j < i :: s[j] != x
  {
    if s[0] == x then 0 else 1 + FirstIndex(s[1..], x)
  }

  /** The position of the last occurrence of `x` in `s`. */
  function LastIndex<T(==)>(s: seq<T>, x: T): (i: nat)
    requires x in s
    ensures i < |s| && s[i] == x
    ensures forall j | i < j < |s| :: s[j] != x
  {
    if s[|s| - 1] == x then |s| - 1 else LastIndex(s[..|s| - 1], x)
  }

  /** Appending an element never moves the first occurrence of an element already present. */
  lemma FirstIndexAppend<T>(s: seq<T>, y: T, x: T)
    requires x in s + [y]
    ensures x in s ==> FirstIndex(s + [y], x) == FirstIndex(s, x)
    ensures x !in s ==> FirstIndex(s + [y], x) == |s|
  {
    if x in s {
      var i := FirstIndex(s, x);
      assert (s + [y])[i] == s[i];
    }
  }

  /** The elements of `s` with every repeat dropped, in order of first appearance. */
  function Unique<T(==)>(s: seq<T>): (u: seq<T>)
    ensures Distinct(u)
    ensures forall x | x in s :: x in u
    ensures forall x | x in u :: x in s
  {
    if |s| == 0 then []
    else
      var prefix := Unique(s[..|s| - 1]);
      var last := s[|s| - 1];
      assert s == s[..|s| - 1] + [last];
      if last in prefix then prefix else prefix + [last]
  }

  /** Dropping repeats leaves a single element exactly when the sequence is
      non-empty and all its elements are equal. */
  lemma UniqueSingle<T>(s: seq<T>)
    ensures |Unique(s)| == 1 <==> |s| > 0 && forall i | 0 <= i < |s| :: s[i] == s[0]
    ensures |Unique(s)| == 1 ==> Unique(s)[0] == s[0]
  {
    var u := Unique(s);
    if |s| > 0 {
      assert s[0] in u;
      if forall i | 0 <= i < |s| :: s[i] == s[0] {
        assert u[0] in s;
      }
      if |u| == 1 {
        forall i | 0 <= i < |s| ensures s[i] == s[0] {
          assert s[i] in u;
        }
      }
    }
  }

  /** A sequence without repeats has as many distinct elements as entries. */
  lemma {:induction false} DistinctCard<T>(s: seq<T>)
    requires Distinct(s)
    ensures |set x | x in s| == |s|
  {
    if |s| > 0 {
      var rest, last := s[..|s| - 1], s[|s| - 1];
      assert Distinct(rest) by {
        forall i, j | 0 <= i < j < |rest| ensures rest[i] != rest[j] {
          assert rest[i] == s[i] && rest[j] == s[j];
        }
      }
      DistinctCard(rest);
      assert last !in rest by {
        forall i | 0 <= i < |rest| ensures rest[i] != last {
          assert rest[i] == s[i];
        }
      }
      assert s == rest + [last];
      assert (set x | x in s) == (set x | x in rest) + {last};
    }
  }
}
