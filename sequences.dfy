/** Facts about sequences that the scoring engine and the turn machine share. */
module Sequences {

  /** No element occurs twice. */
  predicate NoDup<T(==)>(s: seq<T>) {
    forall i, j | 0 <= i < j < |s| :: s[i] != s[j]
  }

  /** In a sequence without repetitions every member occurs exactly once. */
  lemma {:induction false} NoDupMultiplicity<T>(s: seq<T>, x: T)
    requires NoDup(s)
    ensures multiset(s)[x] == if x in s then 1 else 0
  {
    if s != [] {
      assert s == [s[0]] + s[1..];
      assert NoDup(s[1..]) by {
        forall i, j | 0 <= i < j < |s[1..]| ensures s[1..][i] != s[1..][j] {
          assert s[1..][i] == s[i + 1] && s[1..][j] == s[j + 1];
        }
      }
      NoDupMultiplicity(s[1..], x);
      if x == s[0] {
        assert x !in s[1..] by {
          forall k | 0 <= k < |s[1..]| ensures s[1..][k] != x {
            assert s[1..][k] == s[k + 1];
          }
        }
      }
    }
  }

  /** Two repetition-free sequences with the same members are permutations of each other. */
  lemma SameMembersSameMultiset<T>(a: seq<T>, b: seq<T>)
    requires NoDup(a) && NoDup(b)
    requires forall x :: x in a <==> x in b
    ensures multiset(a) == multiset(b)
    ensures |a| == |b|
  {
    forall x ensures multiset(a)[x] == multiset(b)[x] {
      NoDupMultiplicity(a, x);
      NoDupMultiplicity(b, x);
    }
    assert multiset(a) == multiset(b);
    assert |a| == |multiset(a)| == |multiset(b)| == |b|;
  }

  /** The position of the first occurrence of `x`, as Python's `list.index`. */
  function IndexOf<T(==)>(s: seq<T>, x: T): (i: nat)
    requires x in s
    ensures i < |s| && s[i] == x
    ensures forall j | 0 <= j < i :: s[j] != x
  {
    if s[0] == x then 0 else 1 + IndexOf(s[1..], x)
  }

  /** When no element repeats, the first occurrence of `s[k]` is at `k`. */
  lemma IndexOfNoDup<T>(s: seq<T>, k: int)
    requires NoDup(s) && 0 <= k < |s|
    ensures IndexOf(s, s[k]) == k
  {
    var i := IndexOf(s, s[k]);
    assert !(i < k) && !(k < i);
  }

  /**
   * Appending an element keeps the first occurrence of every earlier member, and a new
   * element first occurs at the end.
   */
  lemma IndexOfSnoc<T>(s: seq<T>, y: T)
    ensures forall x | x in s :: IndexOf(s + [y], x) == IndexOf(s, x)
    ensures y !in s ==> IndexOf(s + [y], y) == |s|
  {
    forall x | x in s ensures IndexOf(s + [y], x) == IndexOf(s, x) {
      var i, k := IndexOf(s + [y], x), IndexOf(s, x);
      assert (s + [y])[k] == x;
      assert i <= k;
      assert (s + [y])[i] == s[i];
    }
  }

  /**
   * Removing from `b` an occurrence of the head of `a` leaves a permutation of the
   * tail of `a`, and splits `b` around that occurrence.
   */
  lemma RemoveMatching<T>(a: seq<T>, b: seq<T>, i: int)
    requires multiset(a) == multiset(b)
    requires a != [] && 0 <= i < |b| && b[i] == a[0]
    ensures b == b[..i] + ([a[0]] + b[i + 1..])
    ensures multiset(b[..i] + b[i + 1..]) == multiset(a[1..])
  {
    var x := a[0];
    assert b == b[..i] + [x] + b[i + 1..] == b[..i] + ([x] + b[i + 1..]);
    assert a == [x] + a[1..];
    assert multiset(b) == multiset(b[..i]) + multiset{x} + multiset(b[i + 1..]);
    assert multiset(a) == multiset{x} + multiset(a[1..]);
    assert multiset(b[..i] + b[i + 1..]) == multiset(b[..i]) + multiset(b[i + 1..]);
    forall y ensures multiset(b[..i] + b[i + 1..])[y] == multiset(a[1..])[y] {
      assert multiset(b)[y] == multiset(a)[y];
    }
  }

  /** Permutations have the same members. */
  lemma SameMultisetSameMembers<T>(a: seq<T>, b: seq<T>)
    requires multiset(a) == multiset(b)
    ensures forall x :: x in a <==> x in b
  {
    forall x ensures x in a <==> x in b {
      assert x in a <==> x in multiset(a);
      assert x in b <==> x in multiset(b);
    }
  }

  /** A duplicate-free sequence whose only member is `x` is `[x]`. */
  lemma OnlyMember<T>(s: seq<T>, x: T)
    requires NoDup(s)
    requires forall y :: y in s <==> y == x
    ensures s == [x]
  {
    SameMembersSameMultiset(s, [x]);
    assert s[0] in s;
  }
}
