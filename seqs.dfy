/**
 * The array operations that src/utils/db.js uses on its collections:
 * `findIndex`, `filter`, `includes`, and the notion of a list without repeats.
 */
module Seqs {
  import opened Wrappers
  import opened Ids

  /** No element occurs twice. */
  ghost predicate NoDup<T>(s: seq<T>) {
    forall i, j :: 0 <= i < j < |s| ==> s[i] != s[j]
  }

  /**
   * `findIndex` on a list of keys: the first position holding `k`, or `None`
   * where JavaScript answers -1.
   */
  function FirstIndex(keys: seq<Id>, k: Id): (r: Option<nat>)
    ensures r.None? <==> k !in keys
    ensures r.Some? ==> r.value < |keys| && keys[r.value] == k && k !in keys[..r.value]
  {
    if keys == [] then None
    else if keys[0] == k then Some(0)
    else match FirstIndex(keys[1..], k)
      case None => None
      case Some(i) => assert keys[..i + 1] == [keys[0]] + keys[1..][..i]; Some(i + 1)
  }

  /** In a list without repeats the first position of `k` is its only one. */
  lemma FirstIndexUnique(keys: seq<Id>, k: Id, j: nat)
    requires NoDup(keys) && j < |keys| && keys[j] == k
    ensures FirstIndex(keys, k) == Some(j)
  {
  }

  /** `Array.prototype.filter`: the elements satisfying `p`, in their order. */
  function Filter<T(!new)>(s: seq<T>, p: T -> bool): (r: seq<T>)
    ensures |r| <= |s|
    ensures forall x :: x in r <==> x in s && p(x)
    ensures forall x :: multiset(r)[x] == if p(x) then multiset(s)[x] else 0
  {
    if s == [] then []
    else
      assert s == [s[0]] + s[1..];
      (if p(s[0]) then [s[0]] else []) + Filter(s[1..], p)
  }

  /** `filter((y) => y !== x)`: the list with every occurrence of `x` dropped. */
  function Without(s: seq<Id>, x: Id): (r: seq<Id>)
    ensures |r| <= |s|
    ensures forall y :: y in r <==> y in s && y != x
    ensures forall y :: y != x ==> multiset(r)[y] == multiset(s)[y]
  {
    if s == [] then []
    else
      assert s == [s[0]] + s[1..];
      (if s[0] != x then [s[0]] else []) + Without(s[1..], x)
  }

  /** Dropping a value from a list without repeats removes exactly its one position. */
  lemma {:induction false} WithoutOne(s: seq<Id>, x: Id, i: nat)
    requires NoDup(s) && i < |s| && s[i] == x
    ensures Without(s, x) == s[..i] + s[i + 1..]
  {
    var t := s[1..];
    TailNoDup(s);
    if i == 0 {
      assert x !in t by {
        forall k | 0 <= k < |t| ensures t[k] != x { assert t[k] == s[k + 1]; }
      }
      WithoutAbsent(t, x);
    } else {
      assert s[0] != s[i];
      assert t[i - 1] == x;
      WithoutOne(t, x, i - 1);
      calc {
        Without(s, x);
        [s[0]] + Without(t, x);
        [s[0]] + (t[..i - 1] + t[i..]);
        { assert [s[0]] + t[..i - 1] == s[..i]; assert t[i..] == s[i + 1..]; }
        s[..i] + s[i + 1..];
      }
    }
  }

  /** Dropping a value that does not occur changes nothing. */
  lemma {:induction false} WithoutAbsent(s: seq<Id>, x: Id)
    requires x !in s
    ensures Without(s, x) == s
  {
    if s != [] {
      WithoutAbsent(s[1..], x);
      assert s == [s[0]] + s[1..];
    }
  }

  /** Dropping a value never introduces a repeat. */
  lemma {:induction false} WithoutNoDup(s: seq<Id>, x: Id)
    ensures NoDup(s) ==> NoDup(Without(s, x))
  {
    if NoDup(s) && s != [] {
      TailNoDup(s);
      WithoutNoDup(s[1..], x);
      var r := Without(s, x);
      if s[0] != x {
        assert s[0] !in s[1..] by {
          forall k | 0 <= k < |s[1..]| ensures s[1..][k] != s[0] { assert s[1..][k] == s[k + 1]; }
        }
        assert r == [s[0]] + Without(s[1..], x);
        forall a, b | 0 <= a < b < |r| ensures r[a] != r[b] {
          if a == 0 { assert r[b] in Without(s[1..], x); }
          else { assert r[a] == Without(s[1..], x)[a - 1] && r[b] == Without(s[1..], x)[b - 1]; }
        }
      }
    }
  }

  lemma TailNoDup<T>(s: seq<T>)
    requires NoDup(s) && s != []
    ensures NoDup(s[1..])
  {
    forall a, b | 0 <= a < b < |s[1..]| ensures s[1..][a] != s[1..][b] {
      assert s[1..][a] == s[a + 1] && s[1..][b] == s[b + 1];
    }
  }

  lemma MultisetCancel<T>(a: multiset<T>, b: multiset<T>, x: T)
    requires multiset{x} + a == multiset{x} + b
    ensures a == b
  {
    forall y ensures a[y] == b[y] {
      assert (multiset{x} + a)[y] == (multiset{x} + b)[y];
    }
  }

  /**
   * In two lists holding the same elements, the head of the first sits at
   * some position of the second, and the rests hold the same elements.
   */
  lemma Pick<T>(s: seq<T>, r: seq<T>) returns (i: nat)
    requires s != [] && multiset(s) == multiset(r)
    ensures i < |r| && r[i] == s[0]
    ensures multiset(s[1..]) == multiset(r[..i] + r[i + 1..])
  {
    assert s == [s[0]] + s[1..];
    assert s[0] in multiset(r);
    i :| 0 <= i < |r| && r[i] == s[0];
    assert r == r[..i] + [r[i]] + r[i + 1..];
    assert multiset(r) == multiset{s[0]} + multiset(r[..i] + r[i + 1..]);
    MultisetCancel(multiset(s[1..]), multiset(r[..i] + r[i + 1..]), s[0]);
  }
}
