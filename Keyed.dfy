/** A JavaScript `Map` whose values carry their own key (a presence entry its
    username, a directory entry its room id), as an insertion-ordered
    sequence: `set` on a present key replaces the value in place, on a new key
    appends it; `delete` drops it; `Array.from(map.values())` is the sequence
    itself. */
module Keyed {
  import opened Base

  ghost predicate UniqueKeys<T, K>(s: seq<T>, key: T -> K) {
    forall i, j :: 0 <= i < j < |s| ==> key(s[i]) != key(s[j])
  }

  function Keys<T, K>(s: seq<T>, key: T -> K): set<K> {
    set i | 0 <= i < |s| :: key(s[i])
  }

  /** The position of the entry with key `k`, if any. */
  function Find<T, K(==)>(s: seq<T>, k: K, key: T -> K): (r: Option<nat>)
    ensures r.Some? ==> r.value < |s| && key(s[r.value]) == k
    ensures r.None? ==> forall i :: 0 <= i < |s| ==> key(s[i]) != k
  {
    if s == [] then None
    else if key(s[|s| - 1]) == k then Some(|s| - 1)
    else Find(s[..|s| - 1], k, key)
  }

  /** `map.set(key(x), x)`. */
  function Upsert<T, K(==)>(s: seq<T>, x: T, key: T -> K): (r: seq<T>)
    ensures Find(s, key(x), key).Some? ==> r == s[Find(s, key(x), key).value := x]
    ensures Find(s, key(x), key).None? ==> r == s + [x]
  {
    match Find(s, key(x), key)
    case Some(i) => s[i := x]
    case None => s + [x]
  }

  /** `map.delete(k)`. */
  function Remove<T, K(==)>(s: seq<T>, k: K, key: T -> K): (r: seq<T>)
    ensures |r| <= |s|
    ensures forall i :: 0 <= i < |r| ==> key(r[i]) != k
    ensures forall x :: x in r ==> x in s
  {
    if s == [] then []
    else if key(s[0]) == k then Remove(s[1..], k, key)
    else [s[0]] + Remove(s[1..], k, key)
  }

  /** After `set`, the key is present, maps to the new value, and no other
      entry has changed; keys stay unique. */
  lemma UpsertSpec<T, K>(s: seq<T>, x: T, key: T -> K)
    requires UniqueKeys(s, key)
    ensures var r := Upsert(s, x, key);
      && UniqueKeys(r, key)
      && Keys(r, key) == Keys(s, key) + {key(x)}
      && Find(r, key(x), key).Some? && r[Find(r, key(x), key).value] == x
      && (forall y :: y in s && key(y) != key(x) ==> y in r)
      && (forall y :: y in r && key(y) != key(x) ==> y in s)
  {
    var r := Upsert(s, x, key);
    match Find(s, key(x), key)
    case Some(i) =>
      assert Keys(r, key) == Keys(s, key) by {
        forall k | k in Keys(s, key) ensures k in Keys(r, key) {
          var j :| 0 <= j < |s| && key(s[j]) == k;
          assert key(r[j]) == k;
        }
      }
      forall y | y in s && key(y) != key(x) ensures y in r {
        var j :| 0 <= j < |s| && s[j] == y;
        assert r[j] == y;
      }
      FindUnique(r, i, key);
    case None =>
      assert Keys(r, key) == Keys(s, key) + {key(x)} by {
        assert key(r[|s|]) == key(x);
        forall k | k in Keys(r, key) ensures k in Keys(s, key) + {key(x)} {
          var j :| 0 <= j < |r| && key(r[j]) == k;
          if j < |s| { assert r[j] == s[j]; }
        }
        forall k | k in Keys(s, key) ensures k in Keys(r, key) {
          var j :| 0 <= j < |s| && key(s[j]) == k;
          assert r[j] == s[j];
        }
      }
      FindUnique(r, |s|, key);
  }

  /** With unique keys, `Find` returns the one position holding the key. */
  lemma FindUnique<T, K>(s: seq<T>, i: nat, key: T -> K)
    requires UniqueKeys(s, key) && i < |s|
    ensures Find(s, key(s[i]), key) == Some(i)
  {
  }

  lemma KeysCons<T, K>(x: T, t: seq<T>, key: T -> K)
    ensures Keys([x] + t, key) == {key(x)} + Keys(t, key)
  {
    var s := [x] + t;
    forall q | q in Keys(s, key) ensures q in {key(x)} + Keys(t, key) {
      var j :| 0 <= j < |s| && key(s[j]) == q;
      if j > 0 { assert key(t[j - 1]) == q; }
    }
    assert key(s[0]) == key(x);
    forall q | q in Keys(t, key) ensures q in Keys(s, key) {
      var j :| 0 <= j < |t| && key(t[j]) == q;
      assert key(s[j + 1]) == q;
    }
  }

  lemma UniqueKeysCons<T, K>(x: T, t: seq<T>, key: T -> K)
    requires UniqueKeys(t, key) && key(x) !in Keys(t, key)
    ensures UniqueKeys([x] + t, key)
  {
    var s := [x] + t;
    forall i, j | 0 <= i < j < |s| ensures key(s[i]) != key(s[j]) {
      assert s[j] == t[j - 1];
      if i == 0 {
        assert key(t[j - 1]) in Keys(t, key);
      } else {
        assert s[i] == t[i - 1];
      }
    }
  }

  /** After `delete`, the key is gone and every other entry is still there,
      in the same order. */
  lemma {:induction false} RemoveSpec<T, K>(s: seq<T>, k: K, key: T -> K)
    requires UniqueKeys(s, key)
    ensures var r := Remove(s, k, key);
      && UniqueKeys(r, key)
      && Keys(r, key) == Keys(s, key) - {k}
      && (forall y :: y in s && key(y) != k ==> y in r)
  {
    if s != [] {
      var rest := Remove(s[1..], k, key);
      assert UniqueKeys(s[1..], key);
      RemoveSpec(s[1..], k, key);
      assert s == [s[0]] + s[1..];
      KeysCons(s[0], s[1..], key);
      if key(s[0]) != k {
        assert key(s[0]) !in Keys(s[1..], key);
        KeysCons(s[0], rest, key);
        UniqueKeysCons(s[0], rest, key);
        forall y | y in s && key(y) != k ensures y in [s[0]] + rest {
          if y != s[0] {
            assert y in s[1..];
          }
        }
      } else {
        forall y | y in s && key(y) != k ensures y in rest {
          assert y in s[1..];
        }
      }
    }
  }
}
