/**
 * System::BuildProjectionList: the send-list of old DOF indices a
 * projection needs. Workers each build a list, join() concatenates two
 * workers' lists (so the result may be unsorted and hold duplicates), and
 * unique() sorts it and drops the duplicates.
 */
module ProjectionList {

  predicate StrictlyIncreasing(s: seq<nat>)
  {
    forall i, j :: 0 <= i < j < |s| ==> s[i] < s[j]
  }

  /** Inserts x into an increasing list unless it is already there. */
  function InsertUnique(s: seq<nat>, x: nat): seq<nat>
  {
    if |s| == 0 then [x]
    else if x < s[0] then [x] + s
    else if x == s[0] then s
    else [s[0]] + InsertUnique(s[1..], x)
  }

  lemma {:induction false} InsertUniqueSpec(s: seq<nat>, x: nat)
    requires StrictlyIncreasing(s)
    ensures StrictlyIncreasing(InsertUnique(s, x))
    ensures forall y :: y in InsertUnique(s, x) <==> y in s || y == x
  {
    if |s| > 0 && x > s[0] {
      InsertUniqueSpec(s[1..], x);
      var r := InsertUnique(s, x);
      assert r == [s[0]] + InsertUnique(s[1..], x);
      forall y | y in r ensures y in s || y == x {
        if y != s[0] {
          assert y in InsertUnique(s[1..], x);
        }
      }
      forall y | y in s || y == x ensures y in r {
        if y in s && y != s[0] {
          assert y in s[1..];
        }
      }
      forall i, j | 0 <= i < j < |r| ensures r[i] < r[j] {
        if i == 0 {
          assert r[j] in InsertUnique(s[1..], x);
          assert r[j] in s[1..] || r[j] == x;
        }
      }
    }
  }

  /**
   * The list std::sort followed by std::unique and erase leaves: the same
   * indices, in increasing order, each once.
   */
  function SortedUnique(s: seq<nat>): (r: seq<nat>)
    ensures StrictlyIncreasing(r)
    ensures forall x :: x in r <==> x in s
  {
    if |s| == 0 then []
    else
      var prefix := SortedUnique(s[..|s| - 1]);
      InsertUniqueSpec(prefix, s[|s| - 1]);
      assert s == s[..|s| - 1] + [s[|s| - 1]];
      InsertUnique(prefix, s[|s| - 1])
  }

  lemma HeadIsMinimum(s: seq<nat>, x: nat)
    requires StrictlyIncreasing(s) && x in s
    ensures s[0] <= x
  {
  }

  /** An increasing list is determined by its set of elements. */
  lemma {:induction false} IncreasingListsWithSameElementsAreEqual(a: seq<nat>, b: seq<nat>)
    requires StrictlyIncreasing(a) && StrictlyIncreasing(b)
    requires forall x :: x in a <==> x in b
    ensures a == b
  {
    assert |a| > 0 ==> a[0] in b;
    assert |b| > 0 ==> b[0] in a;
    if |a| > 0 && |b| > 0 {
      // The smallest element of each list is its first one.
      HeadIsMinimum(b, a[0]);
      HeadIsMinimum(a, b[0]);
      forall x ensures x in a[1..] <==> x in b[1..] {
        if x in a[1..] {
          assert x in b && x != b[0];
        }
        if x in b[1..] {
          assert x in a && x != a[0];
        }
      }
      IncreasingListsWithSameElementsAreEqual(a[1..], b[1..]);
      assert a == [a[0]] + a[1..] && b == [b[0]] + b[1..];
    }
  }

  /** unique() does not depend on the order in which two lists were joined. */
  lemma JoinOrderIrrelevantAfterUnique(a: seq<nat>, b: seq<nat>)
    ensures SortedUnique(a + b) == SortedUnique(b + a)
  {
    IncreasingListsWithSameElementsAreEqual(SortedUnique(a + b), SortedUnique(b + a));
  }

  /** unique() of a list that is already unique leaves it as it is. */
  lemma UniqueIdempotent(s: seq<nat>)
    ensures SortedUnique(SortedUnique(s)) == SortedUnique(s)
  {
    IncreasingListsWithSameElementsAreEqual(SortedUnique(SortedUnique(s)), SortedUnique(s));
  }

  /** A joined list can be out of order and repeat an index until unique() runs. */
  lemma JoinedListNeedsUnique()
    ensures !StrictlyIncreasing([2] + [1, 2])
    ensures SortedUnique([2] + [1, 2]) == [1, 2]
  {
    var joined := [2] + [1, 2];
    assert joined[0] > joined[1];
    IncreasingListsWithSameElementsAreEqual(SortedUnique(joined), [1, 2]);
  }

  class BuildProjectionList {
    /** The old DOF indices whose values this worker needs. */
    var sendList: seq<nat>

    constructor ()
      ensures sendList == []
    {
      sendList := [];
    }

    /** The splitting constructor of a fork-join reduction starts a fresh, empty list. */
    constructor Split(other: BuildProjectionList)
      ensures sendList == []
    {
      sendList := [];
    }

    /** Appends the other worker's list to this one. */
    method Join(other: BuildProjectionList)
      requires other != this
      modifies this
      ensures sendList == old(sendList) + other.sendList
      ensures forall x :: x in sendList <==> x in old(sendList) || x in other.sendList
    {
      sendList := sendList + other.sendList;
    }

    /** Sorts the list and removes duplicate indices. */
    method Unique()
      modifies this
      ensures StrictlyIncreasing(sendList)
      ensures forall x :: x in sendList <==> x in old(sendList)
      ensures sendList == SortedUnique(old(sendList))
    {
      sendList := SortedUnique(sendList);
    }
  }
}
