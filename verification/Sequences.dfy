/** Suffixes and order-preserving subsequences, shared by the store, the log and the bus. */
module Sequences {

  /** The last `n` elements of `s`, or the whole of `s` when it is shorter. */
  function Suffix<T>(s: seq<T>, n: nat): (r: seq<T>)
    ensures |r| == if n < |s| then n else |s|
    ensures forall k :: 0 <= k < |r| ==> r[k] == s[|s| - |r| + k]
  {
    if n < |s| then s[|s| - n..] else s
  }

  /** Pushing `x` and trimming to `n` keeps the last `n` elements of everything pushed. */
  lemma SuffixOfPush<T>(s: seq<T>, x: T, n: nat)
    ensures Suffix(Suffix(s, n) + [x], n) == Suffix(s + [x], n)
  {
  }

  lemma SuffixOfSuffix<T>(s: seq<T>, n: nat, k: nat)
    requires k <= n
    ensures Suffix(Suffix(s, n), k) == Suffix(s, k)
  {
  }

  lemma SameSuffix<T>(a: seq<T>, b: seq<T>, m: nat)
    requires m <= |a| && m <= |b|
    ensures Suffix(a, m) == Suffix(b, m) <==> forall i :: |a| - m <= i < |a| ==> a[i] == b[i + |b| - |a|]
  {
    if Suffix(a, m) == Suffix(b, m) {
      forall i | |a| - m <= i < |a|
        ensures a[i] == b[i + |b| - |a|]
      {
        assert Suffix(a, m)[i - (|a| - m)] == Suffix(b, m)[i - (|a| - m)];
      }
    }
  }

  /** `a` is what `b` ends with. */
  predicate IsEnd<T(==)>(a: seq<T>, b: seq<T>) {
    |a| <= |b| && b[|b| - |a|..] == a
  }

  ghost predicate Distinct<T>(s: seq<T>) {
    forall i, j :: 0 <= i < j < |s| ==> s[i] != s[j]
  }

  lemma EndIsDistinct<T>(front: seq<T>, b: seq<T>)
    requires Distinct(front + b)
    ensures Distinct(b)
  {
    var whole := front + b;
    assert forall i :: 0 <= i < |b| ==> b[i] == whole[|front| + i];
  }

  lemma EndOfLonger<T>(a: seq<T>, front: seq<T>, b: seq<T>)
    requires |a| <= |b|
    ensures IsEnd(a, front + b) <==> IsEnd(a, b)
  {
    assert (front + b)[|front| + |b| - |a|..] == b[|b| - |a|..];
  }

  /** Without repeated elements, a shorter end cannot begin with the same element as the whole. */
  lemma EndsBehind<T>(front: seq<T>, a: seq<T>, b: seq<T>)
    requires front != [] && |a| <= |b| && Distinct(front + b)
    ensures IsEnd(front + a, front + b) <==> |a| == |b| && a == b
  {
    var whole, p := front + b, |b| - |a|;
    if IsEnd(front + a, whole) {
      assert whole[p..][0] == front[0] == whole[0];
      assert whole[p] == whole[0];
      assert a == (front + a)[|front|..] && b == whole[|front|..];
    }
  }

  lemma EndOfAppend<T>(a: seq<T>, b: seq<T>, more: seq<T>)
    ensures IsEnd(a + more, b + more) <==> IsEnd(a, b)
  {
    if |a| <= |b| {
      var p := |b| - |a|;
      assert (b + more)[p..] == b[p..] + more;
      if IsEnd(a + more, b + more) {
        assert a == (a + more)[..|a|] && b[p..] == (b[p..] + more)[..|a|];
      }
    }
  }

  lemma EndOfEnd<T>(a: seq<T>, b: seq<T>, c: seq<T>)
    requires |a| <= |b| && IsEnd(b, c)
    ensures IsEnd(a, c) <==> IsEnd(a, b)
  {
    assert c == c[..|c| - |b|] + b;
    EndOfLonger(a, c[..|c| - |b|], b);
  }

  /** `where` lists, in increasing order, the positions of `b` that spell `a`. */
  ghost predicate Spells<T>(a: seq<T>, b: seq<T>, where: seq<nat>) {
    && |where| == |a|
    && (forall i :: 0 <= i < |where| ==> where[i] < |b| && a[i] == b[where[i]])
    && (forall i, j :: 0 <= i < j < |where| ==> where[i] < where[j])
  }

  /** `a` is `b` with some elements left out and the order kept. */
  ghost predicate IsSubsequence<T>(a: seq<T>, b: seq<T>) {
    exists where :: Spells(a, b, where)
  }

  lemma SubsequenceOfItself<T>(a: seq<T>)
    ensures IsSubsequence(a, a)
  {
    assert Spells(a, a, seq(|a|, i requires 0 <= i < |a| => i));
  }

  lemma SubsequenceSkipsLast<T>(a: seq<T>, b: seq<T>, x: T)
    requires IsSubsequence(a, b)
    ensures IsSubsequence(a, b + [x])
  {
    var where: seq<nat> :| Spells(a, b, where);
    assert Spells(a, b + [x], where);
  }

  lemma SubsequenceTakesLast<T>(a: seq<T>, b: seq<T>, x: T)
    requires IsSubsequence(a, b)
    ensures IsSubsequence(a + [x], b + [x])
  {
    var where: seq<nat> :| Spells(a, b, where);
    assert Spells(a + [x], b + [x], where + [|b|]);
  }

  lemma EndIsSubsequence<T>(a: seq<T>, b: seq<T>)
    ensures IsSubsequence(b, a + b)
  {
    assert Spells(b, a + b, seq(|b|, i requires 0 <= i < |b| => |a| + i));
  }

  lemma SubsequenceBehind<T>(front: seq<T>, a: seq<T>, b: seq<T>)
    requires IsSubsequence(a, b)
    ensures IsSubsequence(front + a, front + b)
  {
    var where: seq<nat> :| Spells(a, b, where);
    var longer: seq<nat> := seq(|front| + |where|, i requires 0 <= i < |front| + |where| =>
      if i < |front| then i else |front| + where[i - |front|]);
    assert Spells(front + a, front + b, longer);
  }

  lemma SubsequenceWithout<T>(a: seq<T>, b: seq<T>, k: nat)
    requires k < |a|
    requires IsSubsequence(a, b)
    ensures IsSubsequence(a[..k] + a[k + 1..], b)
  {
    var where: seq<nat> :| Spells(a, b, where);
    assert Spells(a[..k] + a[k + 1..], b, where[..k] + where[k + 1..]);
  }

  lemma SuffixOfSubsequence<T>(a: seq<T>, b: seq<T>, n: nat)
    requires IsSubsequence(a, b)
    ensures IsSubsequence(Suffix(a, n), b)
  {
    var where: seq<nat> :| Spells(a, b, where);
    var k := if n < |a| then |a| - n else 0;
    assert Suffix(a, n) == a[k..];
    assert Spells(a[k..], b, where[k..]);
  }

  lemma {:induction false} PositionsAdvance<T>(a: seq<T>, b: seq<T>, where: seq<nat>, i: nat)
    requires Spells(a, b, where) && i < |where|
    ensures i <= where[i]
    decreases i
  {
    if i > 0 {
      PositionsAdvance(a, b, where, i - 1);
    }
  }

  lemma {:induction false} PositionsLeaveRoom<T>(a: seq<T>, b: seq<T>, where: seq<nat>, i: nat)
    requires Spells(a, b, where) && i < |where|
    ensures where[i] + (|where| - i) <= |b|
    decreases |where| - i
  {
    if i + 1 < |where| {
      PositionsLeaveRoom(a, b, where, i + 1);
    }
  }

  lemma WholeSubsequence<T>(a: seq<T>, b: seq<T>)
    requires IsSubsequence(a, b) && |a| == |b|
    ensures a == b
  {
    var where: seq<nat> :| Spells(a, b, where);
    forall i | 0 <= i < |a|
      ensures a[i] == b[i]
    {
      PositionsAdvance(a, b, where, i);
      PositionsLeaveRoom(a, b, where, i);
    }
  }

  lemma SubsequenceTransitive<T>(a: seq<T>, b: seq<T>, c: seq<T>)
    requires IsSubsequence(a, b) && IsSubsequence(b, c)
    ensures IsSubsequence(a, c)
  {
    var first: seq<nat> :| Spells(a, b, first);
    var second: seq<nat> :| Spells(b, c, second);
    assert Spells(a, c, seq(|a|, i requires 0 <= i < |a| => second[first[i]]));
  }

  function Reversed<T>(s: seq<T>): (r: seq<T>)
    ensures |r| == |s|
    ensures forall k :: 0 <= k < |s| ==> r[k] == s[|s| - 1 - k]
  {
    if s == [] then [] else Reversed(s[1..]) + [s[0]]
  }
}
