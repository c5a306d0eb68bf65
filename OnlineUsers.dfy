/** The users badge (components/online-users.tsx): how many users are
    online, and the order the list is shown in, which the presence hook
    (hooks/use-gun-presence.ts) also uses for the list it emits. The order
    is: the current user first, then online before offline, then by
    `localeCompare` of the usernames, which is the parameter `localeLe`
    ("may come before"). */
module OnlineUsers {
  import opened Types
  import opened Sorting

  /** `users.filter(u => u.isOnline).length`. */
  function OnlineCount(users: seq<UserPresence>): (n: nat)
    ensures n <= |users|
  {
    if users == [] then 0 else (if users[0].isOnline then 1 else 0) + OnlineCount(users[1..])
  }

  lemma {:induction false} OnlineCountAppend(a: seq<UserPresence>, b: seq<UserPresence>)
    ensures OnlineCount(a + b) == OnlineCount(a) + OnlineCount(b)
    decreases |a|
  {
    if a != [] {
      assert (a + b)[1..] == a[1..] + b;
      assert (a + b)[0] == a[0];
      OnlineCountAppend(a[1..], b);
    } else {
      assert a + b == b;
    }
  }

  /** The count is zero exactly when nobody is online, and the whole list
      exactly when everybody is. */
  lemma {:induction false} OnlineCountExtremes(users: seq<UserPresence>)
    ensures OnlineCount(users) == 0 <==> forall i :: 0 <= i < |users| ==> !users[i].isOnline
    ensures OnlineCount(users) == |users| <==> forall i :: 0 <= i < |users| ==> users[i].isOnline
    decreases |users|
  {
    if users != [] {
      OnlineCountExtremes(users[1..]);
      assert forall i :: 1 <= i < |users| ==> users[i] == users[1..][i - 1];
    }
  }

  /** Taking out the user at `k` lowers the count by that user's share. */
  lemma OnlineCountRemove(b: seq<UserPresence>, k: nat)
    requires k < |b|
    ensures OnlineCount(b) == OnlineCount(b[..k] + b[k + 1..]) + (if b[k].isOnline then 1 else 0)
  {
    OnlineCountAppend(b[..k], [b[k]] + b[k + 1..]);
    OnlineCountAppend([b[k]], b[k + 1..]);
    OnlineCountAppend(b[..k], b[k + 1..]);
    assert [b[k]] + b[k + 1..] == b[k..];
    assert b[..k] + b[k..] == b;
  }

  lemma MultisetRemove<T>(b: seq<T>, k: nat)
    requires k < |b|
    ensures multiset(b[..k] + b[k + 1..]) == multiset(b) - multiset{b[k]}
  {
    assert b == b[..k] + [b[k]] + b[k + 1..];
    assert multiset(b) == multiset(b[..k]) + multiset{b[k]} + multiset(b[k + 1..]);
  }

  /** Reordering the users does not change the count, so the badge agrees
      with the sorted list it opens. */
  lemma {:induction false} OnlineCountPermutation(a: seq<UserPresence>, b: seq<UserPresence>)
    requires multiset(a) == multiset(b)
    ensures OnlineCount(a) == OnlineCount(b)
    decreases |a|
  {
    if a == [] {
      assert |b| == |multiset(b)| == 0;
    } else {
      assert a[0] in multiset(b);
      assert a[0] in b;
      var k :| 0 <= k < |b| && b[k] == a[0];
      var rest := b[..k] + b[k + 1..];
      MultisetRemove(b, k);
      assert a == [a[0]] + a[1..];
      assert multiset(a[1..]) == multiset(a) - multiset{a[0]};
      OnlineCountPermutation(a[1..], rest);
      OnlineCountRemove(b, k);
      assert OnlineCount(a) == (if a[0].isOnline then 1 else 0) + OnlineCount(a[1..]);
    }
  }

  /** The comparator of `sortedUsers`, as "`a` may come before `b`". */
  predicate UserBefore(me: string, localeLe: (string, string) -> bool, a: UserPresence, b: UserPresence) {
    if a.username == me then true
    else if b.username == me then false
    else if a.isOnline && !b.isOnline then true
    else if !a.isOnline && b.isOnline then false
    else localeLe(a.username, b.username)
  }

  /** The comparator is a consistent order whenever `localeCompare` is. */
  lemma UserBeforeIsTotalPreorder(me: string, localeLe: (string, string) -> bool)
    requires TotalPreorder(localeLe)
    ensures TotalPreorder((a, b) => UserBefore(me, localeLe, a, b))
  {
    var le := (a, b) => UserBefore(me, localeLe, a, b);
    forall a, b, c | le(a, b) && le(b, c) ensures le(a, c) {
      if a.username != me && c.username != me && b.username != me {
        assert localeLe(a.username, b.username) || a.isOnline != b.isOnline;
      }
    }
  }

  /** `[...users].sort(...)`. */
  function SortedUsers(users: seq<UserPresence>, me: string, localeLe: (string, string) -> bool): seq<UserPresence> {
    SortBy(users, (a, b) => UserBefore(me, localeLe, a, b))
  }

  /** What a list ordered by the comparator looks like. */
  lemma UserOrderFacts(r: seq<UserPresence>, me: string, localeLe: (string, string) -> bool)
    requires Sorted(r, (a, b) => UserBefore(me, localeLe, a, b))
    ensures (exists j :: 0 <= j < |r| && r[j].username == me) ==> r[0].username == me
    ensures forall i, j :: 0 <= i < j < |r| && r[i].username != me && r[j].username != me && r[j].isOnline ==>
                             r[i].isOnline
    ensures forall i, j :: 0 <= i < j < |r| && r[i].username != me && r[j].username != me &&
                           r[i].isOnline == r[j].isOnline ==>
                             localeLe(r[i].username, r[j].username)
  {
    var le := (a, b) => UserBefore(me, localeLe, a, b);
    if exists j :: 0 <= j < |r| && r[j].username == me {
      var j :| 0 <= j < |r| && r[j].username == me;
      if j > 0 {
        assert le(r[0], r[j]);
      }
    }
  }

  /** The sorted list holds the same users; the current user, when present,
      is first; among the others every online user precedes every offline
      one, and users of equal status are in username order. */
  lemma SortedUsersSpec(users: seq<UserPresence>, me: string, localeLe: (string, string) -> bool)
    requires TotalPreorder(localeLe)
    ensures var r := SortedUsers(users, me, localeLe);
      && multiset(r) == multiset(users)
      && OnlineCount(r) == OnlineCount(users)
      && ((exists i :: 0 <= i < |users| && users[i].username == me) ==> r[0].username == me)
      && (forall i, j :: 0 <= i < j < |r| && r[i].username != me && r[j].username != me && r[j].isOnline
            ==> r[i].isOnline)
      && (forall i, j :: 0 <= i < j < |r| && r[i].username != me && r[j].username != me &&
            r[i].isOnline == r[j].isOnline
            ==> localeLe(r[i].username, r[j].username))
  {
    var le := (a, b) => UserBefore(me, localeLe, a, b);
    var r := SortedUsers(users, me, localeLe);
    UserBeforeIsTotalPreorder(me, localeLe);
    SortBySorted(users, le);
    SortByPermutes(users, le);
    OnlineCountPermutation(r, users);
    UserOrderFacts(r, me, localeLe);
    if exists i :: 0 <= i < |users| && users[i].username == me {
      var i :| 0 <= i < |users| && users[i].username == me;
      assert users[i] in multiset(r);
      assert users[i] in r;
    }
  }
}
