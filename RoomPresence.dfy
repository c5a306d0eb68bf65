/** The room presence hook `useRoomGunPresence` (hooks/use-gun-presence.ts):
    its effect, the presence listener, the two timers' bodies and the
    cleanup. Its refs (`usersMap`, the presence node, the interval ids) and
    the `onlineUsers` state are the fields of one object; a timer firing is a
    call of its tick method. */
module RoomPresenceHook {
  import opened Base
  import opened Types
  import opened Keyed
  import opened Presence
  import OnlineUsers

  class RoomPresence {
    /** `localeCompare` on usernames, as "may come before". */
    const localeLe: (string, string) -> bool
    var usersMap: seq<UserPresence>
    var onlineUsers: seq<UserPresence>
    var presenceNode: Option<StorePath>
    var listening: bool
    var heartbeatTimer: bool
    var checkTimer: bool
    /** The `currentUsername` the running effect closed over. */
    var username: string
    var writes: seq<Write>

    ghost predicate Valid()
      reads this
    {
      UniqueKeys(usersMap, Username)
    }

    constructor (localeLe: (string, string) -> bool)
      ensures Valid() && this.localeLe == localeLe
      ensures usersMap == [] && onlineUsers == [] && presenceNode.None?
      ensures !listening && !heartbeatTimer && !checkTimer && writes == []
    {
      this.localeLe := localeLe;
      usersMap := [];
      onlineUsers := [];
      presenceNode := None;
      listening := false;
      heartbeatTimer := false;
      checkTimer := false;
      username := [];
      writes := [];
    }

    /** The sorted list `updateOnlineUsersState` publishes. */
    function Emitted(): seq<UserPresence>
      reads this
    {
      OnlineUsers.SortedUsers(usersMap, username, localeLe)
    }

    /** The effect, run for the inputs `gun`, `roomId`, `currentUsername`,
        `isConnected`: with any of them missing it stops the timers and empties
        the map and the list; otherwise it heartbeats at once, starts both
        timers and attaches the listener. */
    method Effect(hasGun: bool, roomId: Option<string>, currentUsername: string, isConnected: bool, now: int)
      requires Valid()
      modifies this
      ensures Valid()
      ensures var missing := !hasGun || roomId.None? || roomId.value == [] || currentUsername == [] || !isConnected;
        && (missing ==>
              && !heartbeatTimer && !checkTimer && usersMap == [] && onlineUsers == []
              && writes == old(writes) && presenceNode == old(presenceNode) && listening == old(listening)
              && username == old(username))
        && (!missing ==>
              && presenceNode == Some(PresencePath(roomId.value)) && username == currentUsername
              && writes == old(writes) + [Put(PresencePath(roomId.value) + [currentUsername], Heartbeat(now))]
              && heartbeatTimer && checkTimer && listening
              && usersMap == old(usersMap) && onlineUsers == old(onlineUsers))
    {
      if !hasGun || roomId.None? || roomId.value == [] || currentUsername == [] || !isConnected {
        heartbeatTimer := false;
        checkTimer := false;
        onlineUsers := [];
        usersMap := [];
        return;
      }
      presenceNode := Some(PresencePath(roomId.value));
      username := currentUsername;
      writes := writes + [Put(PresencePath(roomId.value) + [currentUsername], Heartbeat(now))];
      heartbeatTimer := true;
      listening := true;
      checkTimer := true;
    }

    /** The heartbeat timer firing (every `HeartbeatInterval` ms). */
    method HeartbeatTick(now: int)
      requires heartbeatTimer && presenceNode.Some?
      modifies this
      ensures username != [] ==> writes == old(writes) + [Put(old(presenceNode).value + [username], Heartbeat(now))]
      ensures username == [] ==> writes == old(writes)
      ensures usersMap == old(usersMap) && onlineUsers == old(onlineUsers) && presenceNode == old(presenceNode)
      ensures listening == old(listening) && heartbeatTimer == old(heartbeatTimer) && checkTimer == old(checkTimer)
      ensures username == old(username)
    {
      if username != [] {
        writes := writes + [Put(presenceNode.value + [username], Heartbeat(now))];
      }
    }

    /** The presence listener for one event: a numeric `lastSeen` upserts the
        user as online, the own user included, and republishes the list;
        anything else is ignored. */
    method OnPresenceData(key: string, lastSeen: Option<int>) returns (emitted: bool)
      requires Valid() && listening
      modifies this
      ensures Valid()
      ensures emitted <==> lastSeen.Some?
      ensures lastSeen.None? ==> usersMap == old(usersMap) && onlineUsers == old(onlineUsers)
      ensures lastSeen.Some? ==>
        && usersMap == Upsert(old(usersMap), UserPresence(key, lastSeen.value, true), Username)
        && onlineUsers == Emitted()
      ensures writes == old(writes) && presenceNode == old(presenceNode) && username == old(username)
      ensures listening == old(listening) && heartbeatTimer == old(heartbeatTimer) && checkTimer == old(checkTimer)
    {
      emitted := false;
      if lastSeen.Some? {
        UpsertSpec(usersMap, UserPresence(key, lastSeen.value, true), Username);
        usersMap := Upsert(usersMap, UserPresence(key, lastSeen.value, true), Username);
        onlineUsers := Emitted();
        emitted := true;
      }
    }

    /** `checkOfflineUsers()` at time `now`: every entry's flag is set to
        `now - lastSeen < OfflineThreshold`, and the list is republished only
        if some flag changed. */
    method CheckOfflineUsers(now: int) returns (updated: bool)
      requires Valid()
      modifies this
      ensures Valid()
      ensures usersMap == RecheckAll(old(usersMap), now)
      ensures updated <==> AnyFlips(old(usersMap), now)
      ensures updated ==> onlineUsers == Emitted()
      ensures !updated ==> onlineUsers == old(onlineUsers) && usersMap == old(usersMap)
      ensures writes == old(writes) && presenceNode == old(presenceNode) && username == old(username)
      ensures listening == old(listening) && heartbeatTimer == old(heartbeatTimer) && checkTimer == old(checkTimer)
    {
      var users := usersMap;
      updated := false;
      var i := 0;
      while i < |users|
        invariant 0 <= i <= |users| == |usersMap|
        invariant forall k :: 0 <= k < i ==> users[k] == Recheck(usersMap[k], now)
        invariant forall k :: i <= k < |users| ==> users[k] == usersMap[k]
        invariant updated <==> exists k :: 0 <= k < i && Flips(usersMap[k], now)
      {
        var user := users[i];
        var isCurrentlyOnline := now - user.lastSeen < OfflineThreshold;
        if user.isOnline != isCurrentlyOnline {
          users := users[i := user.(isOnline := isCurrentlyOnline)];
          updated := true;
        }
        i := i + 1;
      }
      assert users == RecheckAll(usersMap, now);
      RecheckAllSpec(usersMap, now);
      usersMap := users;
      if updated {
        onlineUsers := Emitted();
      }
    }

    /** The effect's cleanup: timers stopped, listener detached, map and list
        emptied; no offline tombstone is written. */
    method Cleanup()
      modifies this
      ensures Valid()
      ensures !heartbeatTimer && !checkTimer && !listening
      ensures usersMap == [] && onlineUsers == []
      ensures writes == old(writes) && presenceNode == old(presenceNode) && username == old(username)
    {
      heartbeatTimer := false;
      checkTimer := false;
      listening := false;
      usersMap := [];
      onlineUsers := [];
    }
  }
}
