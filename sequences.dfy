/**
 * Order-aware facts about sequences: duplicate-free sequences, first
 * occurrences, the insertion-ordered de-duplication that `[...new Set(xs)]`
 * performs, and subsequences.
 */
module Sequences {

  /** No element occurs twice in `s`. */
  predicate NoDuplicates<T(==)>(s: seq<T>)
  {
    forall i, j :: 0 <= i < j < |s| ==> s[i] != s[j]
  }

  /** The position at which `x` first occurs in `s`. */
  function FirstIndex<T(==)>(s: seq<T>, x: T): (k: nat)
    requires x in s
    ensures k < |s| && s[k] == x
    ensures forall i :: 0 <= i < k ==> s[i] != x
  {
    if s[0] == x then 0 else 1 + FirstIndex(s[1..], x)
  }

  /** Each element of `s` once, in order of first appearance: a JavaScript
      `Set` built from `s` inserts the elements one after another and skips
      an element it already holds, and spreading it lists them in insertion
      order. */
  function Distinct<T(==)>(s: seq<T>): (r: seq<T>)
    ensures |r| <= |s|
    ensures NoDuplicates(r)
    ensures forall i :: 0 <= i < |r| ==> r[i] in s
    ensures forall i :: 0 <= i < |s| ==> s[i] in r
  {
    if s == [] then []
    else
      var prefix := Distinct(s[..|s| - 1]);
      if s[|s| - 1] in prefix then prefix else prefix + [s[|s| - 1]]
  }

  /** `r` lists its elements in the order in which they first occur in `s`. */
  ghost predicate InFirstSeenOrder<T>(r: seq<T>, s: seq<T>)
  {
    && (forall x :: x in r ==> x in s)
    && forall i, j :: 0 <= i < j < |r| ==> FirstIndex(s, r[i]) < FirstIndex(s, r[j])
  }

  lemma {:induction false} FirstIndexInPrefix<T>(p: seq<T>, q: seq<T>, x: T)
    requires x in p
    ensures FirstIndex(p + q, x) == FirstIndex(p, x)
  {
    if p[0] != x {
      assert (p + q)[1..] == p[1..] + q;
      FirstIndexInPrefix(p[1..], q, x);
    }
  }

  /** The first occurrences of the distinct elements come in the order in
      which `Distinct` lists them. */
  lemma {:induction false} DistinctFirstSeenOrder<T>(s: seq<T>)
    ensures InFirstSeenOrder(Distinct(s), s)
  {
    if s != [] {
      var init := s[..|s| - 1];
      var last := s[|s| - 1];
      var prefix := Distinct(init);
      DistinctFirstSeenOrder(init);
      assert s == init + [last];
      forall x | x in prefix
        ensures FirstIndex(s, x) == FirstIndex(init, x)
      {
        FirstIndexInPrefix(init, [last], x);
      }
      if last !in prefix {
        var r := prefix + [last];
        assert FirstIndex(s, last) == |s| - 1;
        forall i, j | 0 <= i < j < |r|
          ensures FirstIndex(s, r[i]) < FirstIndex(s, r[j])
        {
          if j < |prefix| {
            assert r[i] == prefix[i] && r[j] == prefix[j];
          } else {
            assert r[i] == prefix[i] && r[i] in init;
            assert FirstIndex(s, r[i]) == FirstIndex(init, r[i]) < |init|;
          }
        }
      }
    }
  }

  /** First-seen order with respect to `s` carries over to a prefix of `s`
      that still holds every element of `r`. */
  lemma FirstSeenOrderInPrefix<T>(p: seq<T>, q: seq<T>, r: seq<T>)
    requires forall i :: 0 <= i < |r| ==> r[i] in p
    requires InFirstSeenOrder(r, p + q)
    ensures InFirstSeenOrder(r, p)
  {
    forall x | x in p
      ensures FirstIndex(p + q, x) == FirstIndex(p, x)
    {
      FirstIndexInPrefix(p, q, x);
    }
  }

  /** When the last element of `s` occurs nowhere before, a sequence in
      first-seen order with the elements of `s` ends with it, and what
      precedes it holds exactly the elements of the rest of `s`. */
  lemma NewLastComesLast<T>(init: seq<T>, last: T, r: seq<T>) returns (front: seq<T>)
    requires last !in init
    requires forall x :: x in r <==> x in init + [last]
    requires InFirstSeenOrder(r, init + [last])
    ensures r == front + [last]
    ensures forall x :: x in front <==> x in init
  {
    var s := init + [last];
    assert forall i :: 0 <= i < |s| - 1 ==> s[i] != last;
    assert FirstIndex(s, last) == |s| - 1;
    assert last in s;
    var m :| 0 <= m < |r| && r[m] == last;
    var j := |r| - 1;
    assert FirstIndex(s, r[j]) <= FirstIndex(s, r[m]);
    assert m == j;
    front := r[..j];
    assert r == front + [last];
    forall x
      ensures x in front <==> x in init
    {
      if x in front {
        var i :| 0 <= i < j && front[i] == x;
        assert FirstIndex(s, r[i]) < FirstIndex(s, r[j]);
      }
      if x in init {
        assert x in r;
        var i :| 0 <= i < |r| && r[i] == x;
        assert i != j;
        assert front[i] == x;
      }
    }
  }

  /** Names the head of a non-empty sequence, so that a caller can conclude
      that a sequence without elements is empty. */
  lemma HeadIsElement<T>(r: seq<T>)
    ensures r != [] ==> r[0] in r
  {
  }

  /** `Distinct` is the only sequence that holds exactly the elements of `s`
      in first-seen order (such a sequence has no duplicates, because its
      first-occurrence positions strictly increase). */
  lemma {:induction false} DistinctUnique<T>(s: seq<T>, r: seq<T>)
    requires forall x :: x in r <==> x in s
    requires InFirstSeenOrder(r, s)
    ensures r == Distinct(s)
  {
    if s == [] {
      HeadIsElement(r);
    } else {
      var init, last := s[..|s| - 1], s[|s| - 1];
      assert s == init + [last];
      if last in init {
        assert forall i :: 0 <= i < |r| ==> r[i] in init by {
          forall i | 0 <= i < |r| ensures r[i] in init {
            assert r[i] in s;
          }
        }
        FirstSeenOrderInPrefix(init, [last], r);
        DistinctUnique(init, r);
      } else {
        var front := NewLastComesLast(init, last, r);
        assert InFirstSeenOrder(front, s) by {
          forall i, k | 0 <= i < k < |front|
            ensures FirstIndex(s, front[i]) < FirstIndex(s, front[k])
          {
            assert front[i] == r[i] && front[k] == r[k];
          }
        }
        FirstSeenOrderInPrefix(init, [last], front);
        DistinctUnique(init, front);
      }
    }
  }

  /** `r` is obtained from `s` by deleting elements, keeping the order of the rest. */
  ghost predicate IsSubsequence<T>(r: seq<T>, s: seq<T>)
    decreases |s|
  {
    if r == [] then true
    else if s == [] then false
    else (r[0] == s[0] && IsSubsequence(r[1..], s[1..])) || IsSubsequence(r, s[1..])
  }

  lemma {:induction false} SubsequenceReflexive<T>(s: seq<T>)
    ensures IsSubsequence(s, s)
  {
    if s != [] {
      SubsequenceReflexive(s[1..]);
    }
  }
}
