/** Sequences as multisets: what a permutation keeps. */
module Sequences {

  ghost predicate NoDuplicates<T>(s: seq<T>) {
    forall i, j :: 0 <= i < j < |s| ==> s[i] != s[j]
  }

  /** A permutation has the same elements, and repeats none when the original repeats none. */
  lemma SameElements<T>(before: seq<T>, after: seq<T>)
    requires NoDuplicates(before) && multiset(before) == multiset(after)
    ensures |before| == |after|
    ensures (forall x :: x in before <==> x in after) && NoDuplicates(after)
  {
    assert |before| == |multiset(before)| == |multiset(after)| == |after|;
    assert forall x :: x in before <==> x in multiset(before);
    assert forall x :: x in after <==> x in multiset(after);
    forall i, j | 0 <= i < j < |after|
      ensures after[i] != after[j]
    {
      CountOnce(before, after[i]);
      if after[i] == after[j] { CountTwice(after, i, j); }
    }
  }

  lemma {:induction false} CountOnce<T>(s: seq<T>, x: T)
    requires NoDuplicates(s)
    ensures multiset(s)[x] == if x in s then 1 else 0
  {
    if s != [] {
      CountOnce(s[1..], x);
      assert s == [s[0]] + s[1..];
    }
  }

  lemma CountTwice<T>(s: seq<T>, i: nat, j: nat)
    requires i < j < |s| && s[i] == s[j]
    ensures multiset(s)[s[i]] >= 2
  {
    assert s == s[..j] + s[j..];
    assert s[i] in s[..j] && s[j] in s[j..];
  }

  /** Two lists of the same elements, without repetition, are permutations of each other. */
  lemma SameListings<T>(a: seq<T>, b: seq<T>)
    requires NoDuplicates(a) && NoDuplicates(b)
    requires forall x :: x in a <==> x in b
    ensures multiset(a) == multiset(b)
  {
    forall x ensures multiset(a)[x] == multiset(b)[x] {
      CountOnce(a, x);
      CountOnce(b, x);
    }
  }

  lemma FirstIsMember<T>(s: seq<T>)
    requires s != []
    ensures s[0] in s
  {
  }

  lemma RemoveOne<T>(init: seq<T>, last: T, b: seq<T>, j: nat)
    requires j < |b| && b[j] == last && multiset(init + [last]) == multiset(b)
    ensures multiset(init) == multiset(b[..j] + b[j + 1..])
  {
    assert b == b[..j] + [last] + b[j + 1..];
    assert multiset(init) == multiset(init + [last]) - multiset{last};
  }

  ghost predicate StrictlyAscending(s: seq<int>) {
    forall i, j :: 0 <= i < j < |s| ==> s[i] < s[j]
  }

  lemma WithoutLast(s: seq<int>)
    requires s != [] && StrictlyAscending(s)
    ensures forall x :: x in s[..|s| - 1] <==> x in s && x != s[|s| - 1]
    ensures StrictlyAscending(s[..|s| - 1])
  {
    assert s == s[..|s| - 1] + [s[|s| - 1]];
  }

  /** A set of numbers has one strictly ascending listing. */
  lemma {:induction false} OneAscendingListing(a: seq<int>, b: seq<int>)
    requires StrictlyAscending(a) && StrictlyAscending(b)
    requires forall x :: x in a <==> x in b
    ensures a == b
    decreases |a|
  {
    if a == [] {
      if b != [] { FirstIsMember(b); }
    } else {
      LastIsGreatest(a);
      assert b != [];
      LastIsGreatest(b);
      WithoutLast(a);
      WithoutLast(b);
      assert a[|a| - 1] == b[|b| - 1];
      var a', b' := a[..|a| - 1], b[..|b| - 1];
      forall x
        ensures x in a' <==> x in b'
      {
        assert x in a' <==> x in a && x != a[|a| - 1];
        assert x in b' <==> x in b && x != b[|b| - 1];
      }
      OneAscendingListing(a', b');
      assert a == a[..|a| - 1] + [a[|a| - 1]];
      assert b == b[..|b| - 1] + [b[|b| - 1]];
    }
  }

  lemma LastIsGreatest(s: seq<int>)
    requires s != [] && StrictlyAscending(s)
    ensures s[|s| - 1] in s && forall x :: x in s ==> x <= s[|s| - 1]
  {
  }
}
