/**
 * The in-place removal helper that array.ts patches onto every array:
 * `remove(item)` splices out the first element strictly equal to `item`, and
 * `remove(items)` with an array argument removes each of its items in turn.
 * Equality is `==` on `T`; for a class type such as a combatant that is
 * reference equality, as `indexOf` compares objects strictly.
 */
module ArrayRemove {

  /** No element occurs twice. */
  predicate Distinct<T(==)>(s: seq<T>) {
    forall i, j :: 0 <= i < j < |s| ==> s[i] != s[j]
  }

  /** `indexOf`: the position of the first occurrence of `x`, or -1. */
  function IndexOf<T(==)>(s: seq<T>, x: T): (i: int)
    ensures -1 <= i < |s|
    ensures i == -1 <==> x !in s
    ensures 0 <= i ==> s[i] == x && x !in s[..i]
  {
    if s == [] then -1
    else if s[0] == x then 0
    else
      var j := IndexOf(s[1..], x);
      if j == -1 then -1
      else
        assert s[..j + 1] == [s[0]] + s[1..][..j];
        j + 1
  }

  /**
   * Reference definition of removing one item: walk the sequence and drop
   * the first element equal to `x`; everything else stays, in order.
   */
  function RemoveFirst<T(==)>(s: seq<T>, x: T): seq<T> {
    if s == [] then []
    else if s[0] == x then s[1..]
    else [s[0]] + RemoveFirst(s[1..], x)
  }

  /** Removing every item of `items`, left to right. */
  function RemoveEach<T(==)>(s: seq<T>, items: seq<T>): seq<T>
    decreases |items|
  {
    if items == [] then s
    else RemoveEach(RemoveFirst(s, items[0]), items[1..])
  }

  /** An item that is not present leaves the sequence as it was. */
  lemma {:induction false} RemoveFirstAbsent<T>(s: seq<T>, x: T)
    requires x !in s
    ensures RemoveFirst(s, x) == s
  {
    if s != [] {
      assert s[0] != x;
      RemoveFirstAbsent(s[1..], x);
    }
  }

  /**
   * The splice at `indexOf` is the reference removal: when `x` is present
   * exactly its first occurrence goes, the length drops by one, and the
   * elements before and after it keep their order (later copies of `x`
   * included).
   */
  lemma {:induction false} RemoveFirstIsSplice<T>(s: seq<T>, x: T)
    requires x in s
    ensures var i := IndexOf(s, x);
      RemoveFirst(s, x) == s[..i] + s[i + 1..] && |RemoveFirst(s, x)| == |s| - 1
  {
    if s[0] != x {
      RemoveFirstIsSplice(s[1..], x);
      var j := IndexOf(s[1..], x);
      assert s[..j + 1] == [s[0]] + s[1..][..j];
      assert s[j + 2..] == s[1..][j + 1..];
    }
  }

  /** Exactly one copy of a present `x` disappears; every other count is kept. */
  lemma {:induction false} RemoveFirstMultiset<T>(s: seq<T>, x: T)
    ensures x in s ==> multiset(RemoveFirst(s, x)) == multiset(s) - multiset{x}
    ensures x !in s ==> multiset(RemoveFirst(s, x)) == multiset(s)
  {
    if s != [] {
      assert s == [s[0]] + s[1..];
      RemoveFirstMultiset(s[1..], x);
    }
  }

  /**
   * Removal is by identity: nothing new appears, and an element different
   * from `x` is kept however much it resembles `x`.
   */
  lemma {:induction false} RemoveFirstMembers<T>(s: seq<T>, x: T)
    ensures forall y :: y in RemoveFirst(s, x) ==> y in s
    ensures forall y :: y in s && y != x ==> y in RemoveFirst(s, x)
  {
    if s != [] && s[0] != x {
      RemoveFirstMembers(s[1..], x);
      assert s == [s[0]] + s[1..];
    }
  }

  /** A sequence without repeats loses `x` itself and stays without repeats. */
  lemma {:induction false} RemoveFirstDistinct<T>(s: seq<T>, x: T)
    requires Distinct(s)
    ensures x !in RemoveFirst(s, x) && Distinct(RemoveFirst(s, x))
  {
    RemoveFirstMultiset(s, x);
    DistinctCounts(s);
    DistinctFromCounts(RemoveFirst(s, x));
    if x in s {
      assert multiset(RemoveFirst(s, x))[x] == 0;
    } else {
      RemoveFirstAbsent(s, x);
    }
  }

  /** In a sequence without repeats every element occurs once. */
  lemma {:induction false} DistinctCounts<T>(s: seq<T>)
    requires Distinct(s)
    ensures forall y :: y in s ==> multiset(s)[y] == 1
  {
    if s != [] {
      assert s == [s[0]] + s[1..];
      DistinctTail(s);
      DistinctCounts(s[1..]);
    }
  }

  /** Without repeats, the head does not occur in the tail, and the tail has no repeats. */
  lemma DistinctTail<T>(s: seq<T>)
    requires s != [] && Distinct(s)
    ensures s[0] !in s[1..] && Distinct(s[1..])
  {
    forall k | 0 <= k < |s| - 1 ensures s[1..][k] != s[0] {
      assert s[1..][k] == s[k + 1];
    }
    forall i, j | 0 <= i < j < |s| - 1 ensures s[1..][i] != s[1..][j] {
      assert s[1..][i] == s[i + 1] && s[1..][j] == s[j + 1];
    }
  }

  /** A sequence in which every element occurs at most once has no repeats. */
  lemma {:induction false} DistinctFromCounts<T>(s: seq<T>)
    requires forall y :: multiset(s)[y] <= 1
    ensures Distinct(s)
  {
    forall i, j | 0 <= i < j < |s|
      ensures s[i] != s[j]
    {
      RepeatCount(s, i, j);
    }
  }

  /** Two equal positions mean at least two copies. */
  lemma {:induction false} RepeatCount<T>(s: seq<T>, i: nat, j: nat)
    requires i < j < |s|
    ensures s[i] == s[j] ==> multiset(s)[s[i]] >= 2
  {
    assert s == s[..i] + [s[i]] + s[i + 1..j] + [s[j]] + s[j + 1..];
  }

  /**
   * Removing a list of items from a sequence without repeats keeps exactly
   * the elements not listed, still without repeats, and never adds anything.
   */
  lemma {:induction false} RemoveEachMembers<T>(s: seq<T>, items: seq<T>)
    requires Distinct(s)
    ensures Distinct(RemoveEach(s, items))
    ensures forall y :: y in RemoveEach(s, items) ==> y in s && y !in items
    ensures forall y :: y in s && y !in items ==> y in RemoveEach(s, items)
    ensures multiset(RemoveEach(s, items)) <= multiset(s)
    decreases |items|
  {
    if items != [] {
      var s' := RemoveFirst(s, items[0]);
      RemoveFirstMembers(s, items[0]);
      RemoveFirstDistinct(s, items[0]);
      RemoveFirstMultiset(s, items[0]);
      RemoveEachMembers(s', items[1..]);
      assert items == [items[0]] + items[1..];
      forall y | y in RemoveEach(s, items)
        ensures y in s && y !in items
      {
        assert y in s' && y !in items[1..];
      }
    }
  }

  /** A JavaScript array as the object that `remove` mutates in place. */
  class List<T(==)> {
    var elems: seq<T>

    /** `remove(item)`: splice out the first occurrence, if there is one. */
    method Remove(item: T)
      modifies this
      ensures elems == RemoveFirst(old(elems), item)
    {
      var index := IndexOf(elems, item);
      if index != -1 {
        RemoveFirstIsSplice(elems, item);
        elems := elems[..index] + elems[index + 1..];
      } else {
        RemoveFirstAbsent(elems, item);
      }
    }

    /** `remove(items)` with an array: remove each item in turn, in order. */
    method RemoveAll(items: seq<T>)
      modifies this
      ensures elems == RemoveEach(old(elems), items)
    {
      for k := 0 to |items|
        invariant RemoveEach(old(elems), items) == RemoveEach(elems, items[k..])
      {
        assert items[k..] == [items[k]] + items[k + 1..];
        Remove(items[k]);
      }
      assert items[|items|..] == [];
    }
  }
}
