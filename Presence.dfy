/** Presence in a room: every client writes `{lastSeen: now}` under its
    username in `room_presence_<roomId>`, and readers keep a username ->
    presence map. Two readers exist: the protocol's `listenToPresence`
    (lib/gun-protocol.ts), which skips its own user and reports the users
    seen within 30 s, and the room presence hook
    (hooks/use-gun-presence.ts), which reports everybody and re-derives
    `isOnline` against a 15 s threshold on a timer. */
module Presence {
  import opened Base
  import opened Types
  import opened Keyed

  /** The protocol's presence window, in milliseconds. */
  const PresenceWindow: int := 30000
  /** The hook's heartbeat period, offline threshold and check period. */
  const HeartbeatInterval: int := 5000
  const OfflineThreshold: int := 15000
  const CheckInterval: int := HeartbeatInterval / 2

  function Username(u: UserPresence): string { u.username }

  // ---------------------------------------------------------------------------
  // the protocol's reader

  /** The list `listenToPresence` hands its callback: the users last seen
      less than 30 s ago, each marked online. */
  function OnlineWithin(users: seq<UserPresence>, now: int): seq<UserPresence> {
    if users == [] then []
    else
      var u := users[0];
      (if now - u.lastSeen < PresenceWindow then [u.(isOnline := now - u.lastSeen < PresenceWindow)] else [])
      + OnlineWithin(users[1..], now)
  }

  /** A user is reported exactly when the map holds it (whatever its stored
      flag) with a `lastSeen` less than 30 s old, and is reported online. */
  lemma {:induction false} OnlineWithinSpec(users: seq<UserPresence>, now: int, v: UserPresence)
    ensures v in OnlineWithin(users, now) <==>
      v.isOnline && now - v.lastSeen < PresenceWindow && (v in users || v.(isOnline := false) in users)
    ensures |OnlineWithin(users, now)| <= |users|
    decreases |users|
  {
    if users != [] {
      OnlineWithinSpec(users[1..], now, v);
      assert users == [users[0]] + users[1..];
    }
  }

  /** The protocol handler's effect: the instance-wide map and the list
      passed to `onPresenceChange`, if it was called. */
  datatype PresenceStep = PresenceStep(users: seq<UserPresence>, emitted: Option<seq<UserPresence>>)

  /** One presence event for `key`; `lastSeen` is `None` unless the value
      holds a numeric `lastSeen` (a tombstone does not). */
  function OnProtocolPresence(users: seq<UserPresence>, me: string, key: string, lastSeen: Option<int>,
                              now: int): PresenceStep
  {
    if key == me then PresenceStep(users, None)
    else
      var us := if lastSeen.Some? then Upsert(users, UserPresence(key, lastSeen.value, true), Username) else users;
      PresenceStep(us, Some(OnlineWithin(us, now)))
  }

  /** The own key is skipped altogether; a numeric `lastSeen` upserts the
      user as online, anything else (a tombstone included) leaves the map as
      it is; every other event reports the 30 s list. The own user therefore
      never enters a map that did not hold it. */
  lemma OnProtocolPresenceSpec(users: seq<UserPresence>, me: string, key: string, lastSeen: Option<int>, now: int)
    requires UniqueKeys(users, Username)
    ensures var s := OnProtocolPresence(users, me, key, lastSeen, now);
      && (key == me ==> s == PresenceStep(users, None))
      && (key != me ==> s.emitted == Some(OnlineWithin(s.users, now)))
      && (key != me && lastSeen.None? ==> s.users == users)
      && (key != me && lastSeen.Some? ==>
            && UserPresence(key, lastSeen.value, true) in s.users
            && Keys(s.users, Username) == Keys(users, Username) + {key}
            && (forall u :: u in users && u.username != key ==> u in s.users))
      && UniqueKeys(s.users, Username)
      && (me !in Keys(users, Username) ==> me !in Keys(s.users, Username))
  {
    if key != me && lastSeen.Some? {
      var x := UserPresence(key, lastSeen.value, true);
      UpsertSpec(users, x, Username);
      var r := Upsert(users, x, Username);
      assert r[Find(r, x.username, Username).value] == x;
    }
  }

  // ---------------------------------------------------------------------------
  // the hook's reader

  /** `isCurrentlyOnline` for one entry at time `now`. */
  function Recheck(u: UserPresence, now: int): UserPresence {
    u.(isOnline := now - u.lastSeen < OfflineThreshold)
  }

  /** The map after `checkOfflineUsers` at time `now`. */
  function RecheckAll(users: seq<UserPresence>, now: int): (r: seq<UserPresence>)
    ensures |r| == |users|
  {
    seq(|users|, i requires 0 <= i < |users| => Recheck(users[i], now))
  }

  /** The entry's flag disagrees with the threshold at `now`. */
  predicate Flips(u: UserPresence, now: int) {
    u.isOnline != (now - u.lastSeen < OfflineThreshold)
  }

  predicate AnyFlips(users: seq<UserPresence>, now: int) {
    exists i :: 0 <= i < |users| && Flips(users[i], now)
  }

  /** A check keeps every key, its position and its `lastSeen`, sets each flag
      to the threshold test, and is idempotent: right after it, nothing flips. */
  lemma RecheckAllSpec(users: seq<UserPresence>, now: int)
    ensures var r := RecheckAll(users, now);
      && (forall i :: 0 <= i < |r| ==>
            r[i].username == users[i].username && r[i].lastSeen == users[i].lastSeen
            && (r[i].isOnline <==> now - users[i].lastSeen < OfflineThreshold))
      && Keys(r, Username) == Keys(users, Username)
      && (UniqueKeys(users, Username) ==> UniqueKeys(r, Username))
      && (r == users <==> !AnyFlips(users, now))
      && !AnyFlips(r, now)
      && RecheckAll(r, now) == r
  {
    var r := RecheckAll(users, now);
    if r != users {
      var i :| 0 <= i < |r| && r[i] != users[i];
      assert AnyFlips(users, now) by { assert Flips(users[i], now); }
    }
  }

  /** The flags a single user shows at successive checks, with no new heartbeat. */
  function FlipCount(u: UserPresence, times: seq<int>): nat
    decreases |times|
  {
    if times == [] then 0
    else (if Flips(u, times[0]) then 1 else 0) + FlipCount(Recheck(u, times[0]), times[1..])
  }

  ghost predicate Ascending(times: seq<int>) {
    forall i, j :: 0 <= i < j < |times| ==> times[i] <= times[j]
  }

  /** Once a user is marked offline and its heartbeat is at least 15 s old, no
      later check changes it. */
  lemma {:induction false} ExpiredStaysOffline(u: UserPresence, times: seq<int>)
    requires !u.isOnline
    requires forall i :: 0 <= i < |times| ==> times[i] - u.lastSeen >= OfflineThreshold
    ensures FlipCount(u, times) == 0
    decreases |times|
  {
    if times != [] {
      assert Recheck(u, times[0]) == u;
      ExpiredStaysOffline(u, times[1..]);
    }
  }

  /** Decay: with no newer heartbeat and checks at ascending times, a user
      shown online is flipped (and so re-emitted) at most once, and exactly
      once if some check comes 15 s or more after its heartbeat; until then
      every check leaves it online. */
  lemma {:induction false} DecayFlipsOnce(u: UserPresence, times: seq<int>)
    requires u.isOnline && Ascending(times)
    ensures FlipCount(u, times) <= 1
    ensures FlipCount(u, times) == 1 <==>
      exists i :: 0 <= i < |times| && times[i] - u.lastSeen >= OfflineThreshold
    decreases |times|
  {
    if times != [] {
      var v := Recheck(u, times[0]);
      if times[0] - u.lastSeen < OfflineThreshold {
        assert v == u;
        assert Ascending(times[1..]);
        DecayFlipsOnce(u, times[1..]);
        if exists i :: 0 <= i < |times| && times[i] - u.lastSeen >= OfflineThreshold {
          var i :| 0 <= i < |times| && times[i] - u.lastSeen >= OfflineThreshold;
          assert times[1..][i - 1] == times[i];
        }
        if exists i :: 0 <= i < |times[1..]| && times[1..][i] - u.lastSeen >= OfflineThreshold {
          var i :| 0 <= i < |times[1..]| && times[1..][i] - u.lastSeen >= OfflineThreshold;
          assert times[i + 1] == times[1..][i];
        }
      } else {
        assert forall i :: 0 <= i < |times[1..]| ==> times[1..][i] == times[i + 1];
        ExpiredStaysOffline(v, times[1..]);
      }
    }
  }
}
