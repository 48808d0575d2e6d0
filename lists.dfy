/**
 * The three list operations of the .NET library that the configuration pages rely on:
 * List<T>.IndexOf, List<T>.Remove (IndexOf followed by RemoveAt) and Enumerable.Distinct.
 * Elements are compared with `==`; for class types that is reference equality, which is
 * what List<T>.Remove uses for objects that do not override Equals.
 */
module Lists {

  /** Every element of `s` occurs at most once. */
  ghost predicate NoDuplicates<T>(s: seq<T>) {
    forall i, j :: 0 <= i < j < |s| ==> s[i] != s[j]
  }

  /** The elements of `r` come in the order of their first occurrences in `s`. */
  ghost predicate InFirstOccurrenceOrder<T>(r: seq<T>, s: seq<T>) {
    forall i, j :: 0 <= i < j < |r| ==> IndexOf(s, r[i]) < IndexOf(s, r[j])
  }

  /** List<T>.IndexOf: the index of the first element equal to `x`, or -1 when there is none. */
  function IndexOf<T(==)>(s: seq<T>, x: T): (i: int)
    ensures -1 <= i < |s|
    ensures i == -1 <==> x !in s
    ensures 0 <= i ==> s[i] == x && forall k :: 0 <= k < i ==> s[k] != x
    decreases |s|
  {
    if s == [] then -1
    else if s[0] == x then 0
    else
      var j := IndexOf(s[1..], x);
      if j < 0 then -1 else j + 1
  }

  /**
   * List<T>.Remove: drops the first element equal to `x` and keeps the others in order;
   * a list without `x` is returned as it is.
   */
  function Remove<T(==)>(s: seq<T>, x: T): (r: seq<T>)
    ensures x !in s ==> r == s
    ensures x in s ==> |r| == |s| - 1 && multiset(r) == multiset(s) - multiset{x}
    ensures x in s ==> forall k :: 0 <= k < IndexOf(s, x) ==> r[k] == s[k]
  {
    var i := IndexOf(s, x);
    if i < 0 then s
    else
      assert s == s[..i] + [s[i]] + s[i + 1..];
      s[..i] + s[i + 1..]
  }

  /** Reference definition of removing the first occurrence: walk the list, drop the first `x` met. */
  function WithoutFirst<T(==)>(s: seq<T>, x: T): (r: seq<T>)
    decreases |s|
  {
    if s == [] then []
    else if s[0] == x then s[1..]
    else [s[0]] + WithoutFirst(s[1..], x)
  }

  /** List<T>.Remove agrees with the element-by-element reference definition on every list. */
  lemma {:induction false} RemoveIsWithoutFirst<T>(s: seq<T>, x: T)
    ensures Remove(s, x) == WithoutFirst(s, x)
    decreases |s|
  {
    if s != [] && s[0] != x {
      var tail := s[1..];
      RemoveIsWithoutFirst(tail, x);
      var j := IndexOf(tail, x);
      if 0 <= j {
        assert IndexOf(s, x) == j + 1;
        calc {
          Remove(s, x);
          s[..j + 1] + s[j + 2..];
          { assert s[..j + 1] == [s[0]] + tail[..j]; assert s[j + 2..] == tail[j + 1..]; }
          [s[0]] + (tail[..j] + tail[j + 1..]);
          [s[0]] + Remove(tail, x);
        }
      } else {
        assert x !in s;
        assert x !in tail ==> WithoutFirst(tail, x) == tail;
      }
    }
  }

  /** Removing an element that was just appended, and was not in the list before, restores the list. */
  lemma RemoveAfterAppend<T>(s: seq<T>, x: T)
    requires x !in s
    ensures Remove(s + [x], x) == s
  {
    var t := s + [x];
    assert forall k :: 0 <= k < |s| ==> t[k] == s[k];
    assert x !in t[..|s|] by { assert t[..|s|] == s; }
    assert IndexOf(t, x) == |s|;
    assert t[..|s|] == s;
  }

  /**
   * Enumerable.Distinct: the elements of `s`, each once, in the order in which they first occur.
   */
  function Distinct<T(==)>(s: seq<T>): (r: seq<T>)
    ensures NoDuplicates(r)
    ensures forall k :: 0 <= k < |r| ==> r[k] in s
    ensures forall k :: 0 <= k < |s| ==> s[k] in r
    ensures InFirstOccurrenceOrder(r, s)
  {
    DistinctExceptMembers(s, {});
    DistinctExceptNoDuplicates(s, {});
    DistinctExceptOrder(s, {});
    DistinctExcept(s, {})
  }

  /** The forward pass of Distinct with the set of elements already produced. */
  function DistinctExcept<T(==)>(s: seq<T>, seen: set<T>): (r: seq<T>)
    decreases |s|
  {
    if s == [] then []
    else if s[0] in seen then DistinctExcept(s[1..], seen)
    else [s[0]] + DistinctExcept(s[1..], seen + {s[0]})
  }

  /** The index of an element of the tail, seen from the whole list. */
  lemma IndexOfInTail<T>(s: seq<T>, y: T)
    requires s != [] && s[0] != y && y in s[1..]
    ensures IndexOf(s, y) == IndexOf(s[1..], y) + 1
  {
  }

  /** Distinct's forward pass produces exactly the elements of `s` it has not seen yet. */
  lemma {:induction false} DistinctExceptMembers<T>(s: seq<T>, seen: set<T>)
    ensures forall y :: y in DistinctExcept(s, seen) ==> y in s && y !in seen
    ensures forall y :: y in s && y !in seen ==> y in DistinctExcept(s, seen)
    decreases |s|
  {
    if s != [] {
      assert forall y :: y in s && y != s[0] ==> y in s[1..];
      if s[0] in seen {
        DistinctExceptMembers(s[1..], seen);
      } else {
        DistinctExceptMembers(s[1..], seen + {s[0]});
      }
    }
  }

  /** Distinct's forward pass never produces an element twice. */
  lemma {:induction false} DistinctExceptNoDuplicates<T>(s: seq<T>, seen: set<T>)
    ensures NoDuplicates(DistinctExcept(s, seen))
    decreases |s|
  {
    if s != [] {
      if s[0] in seen {
        DistinctExceptNoDuplicates(s[1..], seen);
      } else {
        var r := DistinctExcept(s, seen);
        var r' := DistinctExcept(s[1..], seen + {s[0]});
        DistinctExceptNoDuplicates(s[1..], seen + {s[0]});
        DistinctExceptMembers(s[1..], seen + {s[0]});
        assert r == [s[0]] + r';
        forall i, j | 0 <= i < j < |r| ensures r[i] != r[j] {
          assert r[j] == r'[j - 1] && r'[j - 1] in r';
          if i > 0 {
            assert r[i] == r'[i - 1];
          }
        }
      }
    }
  }

  /** Distinct's forward pass keeps the order of first occurrences. */
  lemma {:induction false} DistinctExceptOrder<T>(s: seq<T>, seen: set<T>)
    ensures InFirstOccurrenceOrder(DistinctExcept(s, seen), s)
    decreases |s|
  {
    if s != [] {
      var r := DistinctExcept(s, seen);
      if s[0] in seen {
        var r' := DistinctExcept(s[1..], seen);
        DistinctExceptOrder(s[1..], seen);
        DistinctExceptMembers(s[1..], seen);
        forall i, j | 0 <= i < j < |r| ensures IndexOf(s, r[i]) < IndexOf(s, r[j]) {
          assert r[i] in r' && r[j] in r';
          IndexOfInTail(s, r[i]);
          IndexOfInTail(s, r[j]);
        }
      } else {
        var r' := DistinctExcept(s[1..], seen + {s[0]});
        DistinctExceptOrder(s[1..], seen + {s[0]});
        DistinctExceptMembers(s[1..], seen + {s[0]});
        assert r == [s[0]] + r';
        forall i, j | 0 <= i < j < |r| ensures IndexOf(s, r[i]) < IndexOf(s, r[j]) {
          assert r[j] == r'[j - 1] && r'[j - 1] in r';
          IndexOfInTail(s, r[j]);
          if i > 0 {
            assert r[i] == r'[i - 1] && r'[i - 1] in r';
            IndexOfInTail(s, r[i]);
          } else {
            assert r[i] == s[0];
            assert IndexOf(s, r[i]) == 0;
            assert IndexOf(s[1..], r[j]) >= 0;
          }
        }
      }
    }
  }
}
