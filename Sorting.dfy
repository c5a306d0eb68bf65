/** `Array.prototype.sort` with a comparator, which the runtime performs as a
    stable sort: elements the comparator ranks equal keep their input order.
    A comparator is modelled by `le(a, b)`, "`a` may come before `b`"
    (`compare(a, b) <= 0`); the insertion sort below is the unique stable
    sort for such a relation. */
module Sorting {

  /** `le` ranks every pair and is transitive. */
  ghost predicate TotalPreorder<T(!new)>(le: (T, T) -> bool) {
    && (forall a, b :: le(a, b) || le(b, a))
    && (forall a, b, c :: le(a, b) && le(b, c) ==> le(a, c))
  }

  ghost predicate Sorted<T>(s: seq<T>, le: (T, T) -> bool) {
    forall i, j :: 0 <= i < j < |s| ==> le(s[i], s[j])
  }

  /** Where `Insert` puts `x`: just after the last element that may come before it. */
  function InsertIndex<T>(s: seq<T>, x: T, le: (T, T) -> bool): (k: nat)
    ensures k <= |s|
    ensures forall i :: k <= i < |s| ==> !le(s[i], x)
    ensures k > 0 ==> le(s[k - 1], x)
  {
    if s == [] || le(s[|s| - 1], x) then |s| else InsertIndex(s[..|s| - 1], x, le)
  }

  /** One step of the stable insertion sort: `x` goes right after the last
      element that may come before it. */
  function Insert<T>(s: seq<T>, x: T, le: (T, T) -> bool): (r: seq<T>)
    ensures var k := InsertIndex(s, x, le); r == s[..k] + [x] + s[k..]
  {
    if s == [] || le(s[|s| - 1], x) then s + [x]
    else
      var r := Insert(s[..|s| - 1], x, le) + [s[|s| - 1]];
      var k := InsertIndex(s[..|s| - 1], x, le);
      assert s[..|s| - 1][..k] == s[..k];
      assert s[..|s| - 1][k..] + [s[|s| - 1]] == s[k..];
      r
  }

  /** The stable sort of `s` under `le`. */
  function SortBy<T>(s: seq<T>, le: (T, T) -> bool): seq<T>
  {
    if s == [] then [] else Insert(SortBy(s[..|s| - 1], le), s[|s| - 1], le)
  }

  lemma InsertPermutes<T>(s: seq<T>, x: T, le: (T, T) -> bool)
    ensures multiset(Insert(s, x, le)) == multiset(s) + multiset{x}
  {
    var k := InsertIndex(s, x, le);
    var a, b := s[..k], s[k..];
    assert s == a + b;
    assert Insert(s, x, le) == a + [x] + b;
    calc {
      multiset(Insert(s, x, le));
      multiset(a + [x] + b);
      multiset(a) + multiset([x]) + multiset(b);
      multiset(a + b) + multiset{x};
    }
  }

  /** Sorting rearranges and neither adds nor drops an element. */
  lemma {:induction false} SortByPermutes<T>(s: seq<T>, le: (T, T) -> bool)
    ensures multiset(SortBy(s, le)) == multiset(s)
    ensures |SortBy(s, le)| == |s|
  {
    if s != [] {
      var init, last := s[..|s| - 1], s[|s| - 1];
      assert s == init + [last];
      var sortedInit := SortBy(init, le);
      assert SortBy(s, le) == Insert(sortedInit, last, le);
      SortByPermutes(init, le);
      InsertPermutes(sortedInit, last, le);
      assert multiset(s) == multiset(init) + multiset{last};
      assert |SortBy(s, le)| == |multiset(SortBy(s, le))|;
    }
  }

  /** Inserting into a sorted sequence keeps it sorted. */
  lemma InsertSorted<T(!new)>(s: seq<T>, x: T, le: (T, T) -> bool)
    requires TotalPreorder(le) && Sorted(s, le)
    ensures Sorted(Insert(s, x, le), le)
  {
    var k := InsertIndex(s, x, le);
    var r := Insert(s, x, le);
    assert forall i :: 0 <= i < k ==> le(s[i], x) by {
      forall i | 0 <= i < k ensures le(s[i], x) {
        if i < k - 1 { assert le(s[i], s[k - 1]); }
      }
    }
    forall i, j | 0 <= i < j < |r| ensures le(r[i], r[j]) {
      if j == k {
        assert r[i] == s[i];
      } else if i == k {
        assert r[j] == s[j - 1];
        assert !le(s[j - 1], x);
      } else {
        var a := if i < k then i else i - 1;
        var b := if j < k then j else j - 1;
        assert r[i] == s[a] && r[j] == s[b] && a < b;
      }
    }
  }

  /** The result of sorting is sorted. */
  lemma {:induction false} SortBySorted<T(!new)>(s: seq<T>, le: (T, T) -> bool)
    requires TotalPreorder(le)
    ensures Sorted(SortBy(s, le), le)
  {
    if s != [] {
      SortBySorted(s[..|s| - 1], le);
      InsertSorted(SortBy(s[..|s| - 1], le), s[|s| - 1], le);
    }
  }

  /** Sorting an already sorted sequence leaves it as it is (stability). */
  lemma {:induction false} SortBySortedIsIdentity<T>(s: seq<T>, le: (T, T) -> bool)
    requires Sorted(s, le)
    ensures SortBy(s, le) == s
  {
    if s != [] {
      var init := s[..|s| - 1];
      assert Sorted(init, le);
      SortBySortedIsIdentity(init, le);
      if |init| > 0 {
        assert le(init[|init| - 1], s[|s| - 1]);
      }
      assert init + [s[|s| - 1]] == s;
    }
  }

  /** Sorting `s + [x]` when `s` is already sorted is a single insertion:
      `x` lands after every element it ties with. */
  lemma SortAppendSorted<T>(s: seq<T>, x: T, le: (T, T) -> bool)
    requires Sorted(s, le)
    ensures SortBy(s + [x], le) == Insert(s, x, le)
  {
    assert (s + [x])[..|s|] == s;
    SortBySortedIsIdentity(s, le);
  }
}
