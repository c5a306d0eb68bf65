/** The React hook `useEph` (hooks/use-gun-protocol.ts): it obtains the
    process-wide `Eph`, initialises it once, and wraps the protocol's
    operations behind the guard "an instance is held and initialised",
    turning every failure into one of its own error messages. Its state and
    refs are the fields of one object. A message listener's cleanup is
    represented by the chat node it detaches from; `detached` logs the
    cleanups that have run. */
module EphHook {
  import opened Base
  import opened Types
  import opened Capability
  import MessageIntake
  import GunProtocol
  import Presence
  import Directory

  class UseEph {
    const relayUrl: string
    const registry: GunProtocol.EphRegistry
    /** `protocolRef.current`. */
    var protocol: GunProtocol.Eph?
    /** `isInitializedRef.current`. */
    var initialized: bool
    var isConnected: bool
    var isLoading: bool
    var error: Option<string>
    var currentRoom: Option<ChatRoom>
    var roomId: Option<string>
    var roomKeys: Option<RoomKeys>
    var messages: seq<Message>
    var onlineUsers: seq<UserPresence>
    var publishedRooms: seq<PublishedRoom>
    /** `processedMessagesRef.current`: only ever cleared. */
    var processedMessagesRef: set<string>
    /** `cleanupFunctionsRef.current`. */
    var cleanups: seq<StorePath>
    var detached: seq<StorePath>
    /** The address after `history.replaceState`. */
    var url: string

    ghost predicate Valid()
      reads this, registry, protocol, registry.instance
    {
      && (protocol != null ==> protocol.Valid())
      && (registry.instance != null ==> registry.instance.Valid())
    }

    /** `protocolRef.current && isInitializedRef.current`, the guard of every
        wrapped operation. */
    predicate Ready()
      reads this
    {
      protocol != null && initialized
    }

    constructor (relayUrl: string, registry: GunProtocol.EphRegistry, url: string)
      ensures this.relayUrl == relayUrl && this.registry == registry && this.url == url
      ensures protocol == null && !initialized && !isConnected && isLoading && error.None?
      ensures currentRoom.None? && roomId.None? && roomKeys.None?
      ensures messages == [] && onlineUsers == [] && publishedRooms == []
      ensures processedMessagesRef == {} && cleanups == [] && detached == []
    {
      this.relayUrl := relayUrl;
      this.registry := registry;
      this.url := url;
      protocol := null;
      initialized := false;
      isConnected := false;
      isLoading := true;
      error := None;
      currentRoom := None;
      roomId := None;
      roomKeys := None;
      messages := [];
      onlineUsers := [];
      publishedRooms := [];
      processedMessagesRef := {};
      cleanups := [];
      detached := [];
    }

    /** The initialisation effect: once the hook is initialised it does
        nothing. Otherwise it takes the registered instance, or registers a
        new one for its relay, and initialises it; the hook counts as
        initialised exactly when that succeeds (the instance was ready or the
        libraries load), and on any failure, whatever the instance's message,
        it shows "Failed to initialize connection". Loading ends either way. */
    method InitEffect(env: GunProtocol.LibraryEnv)
      requires Valid()
      modifies this, registry, registry.instance
      ensures Valid()
      ensures old(initialized) ==> unchanged(this) && unchanged(registry)
      ensures !old(initialized) ==>
        && protocol != null && protocol == registry.instance
        && (old(registry.instance) != null ==> protocol == old(registry.instance))
        && (old(registry.instance) == null ==> fresh(protocol) && protocol.config == EphConfig(relayUrl))
        && initialized == ((old(registry.instance) != null && old(registry.instance.isInitialized)) || GunProtocol.LibrariesLoad(env))
        && protocol.isInitialized == initialized
        && (initialized ==> protocol.gun.Some?)
        && !isLoading
        && error == (if initialized then None else Some("Failed to initialize connection"))
      ensures currentRoom == old(currentRoom) && messages == old(messages) && cleanups == old(cleanups)
    {
      if initialized {
        return;
      }
      isLoading := true;
      error := None;
      var p := registry.GetEph();
      if p == null {
        p := registry.CreateEph(EphConfig(relayUrl));
      }
      protocol := p;
      var r := p.Initialize(env);
      if r.Ok? {
        isLoading := false;
        initialized := true;
      } else {
        error := Some("Failed to initialize connection");
        isLoading := false;
      }
    }

    /** `onConnectionChange`, called on the store's "hi" and "bye" events. */
    method OnConnectionChange(connected: bool)
      modifies this
      ensures isConnected == connected
      ensures protocol == old(protocol) && initialized == old(initialized) && error == old(error)
      ensures messages == old(messages) && currentRoom == old(currentRoom) && cleanups == old(cleanups)
    {
      isConnected := connected;
    }

    /** Runs every stored cleanup in order and forgets them: the effect's
        unmount cleanup, and a step of `retryConnection`. */
    method RunCleanups()
      modifies this
      ensures detached == old(detached) + old(cleanups) && cleanups == []
      ensures protocol == old(protocol) && initialized == old(initialized) && error == old(error)
      ensures isLoading == old(isLoading) && isConnected == old(isConnected) && url == old(url)
      ensures currentRoom == old(currentRoom) && roomId == old(roomId) && roomKeys == old(roomKeys)
      ensures messages == old(messages) && processedMessagesRef == old(processedMessagesRef)
      ensures onlineUsers == old(onlineUsers) && publishedRooms == old(publishedRooms)
    {
      var log := detached;
      var i := 0;
      while i < |cleanups|
        invariant 0 <= i <= |cleanups|
        invariant log == detached + cleanups[..i]
      {
        log := log + [cleanups[i]];
        i := i + 1;
      }
      detached := log;
      cleanups := [];
    }

    /** `listenToPresence(roomId, username)`: with no ready instance or an
        empty username it attaches nothing; otherwise the protocol's
        `listenToPresence`, which writes the own heartbeat when it has a store. */
    method ListenToPresence(roomId: string, username: string, now: int) returns (attached: bool)
      requires Valid()
      modifies protocol
      ensures Valid()
      ensures attached <==> Ready() && username != [] && protocol.gun.Some?
      ensures attached ==>
        protocol.writes == old(protocol.writes) + [Put(PresencePath(roomId) + [username], Heartbeat(now))]
      ensures !attached && protocol != null ==> protocol.writes == old(protocol.writes)
      ensures protocol != null ==> protocol.State() == old(protocol.State())
    {
      if protocol == null || username == [] || !initialized {
        return false;
      }
      attached := protocol.ListenToPresence(roomId, username, now);
    }

    /** The presence callback: a list the protocol emits replaces `onlineUsers`. */
    method OnPresenceEvent(me: string, key: string, lastSeen: Option<int>, now: int)
      requires Valid() && protocol != null
      modifies this, protocol
      ensures Valid() && protocol == old(protocol)
      ensures var s := Presence.OnProtocolPresence(old(protocol.presenceUsers), me, key, lastSeen, now);
        && protocol.presenceUsers == s.users
        && onlineUsers == (if s.emitted.Some? then s.emitted.value else old(onlineUsers))
      ensures protocol.writes == old(protocol.writes) && protocol.processedRooms == old(protocol.processedRooms)
      ensures messages == old(messages) && publishedRooms == old(publishedRooms) && error == old(error)
    {
      var emitted := protocol.OnPresenceEvent(me, key, lastSeen, now);
      if emitted.Some? {
        onlineUsers := emitted.value;
      }
    }
    /** `listenToPublishedRooms()`: with no ready instance nothing is attached;
        otherwise the protocol's listener, if it has a store. */
    method ListenToPublishedRooms() returns (l: GunProtocol.DirectoryListener?)
      requires Valid()
      ensures !Ready() || protocol.gun.None? ==> l == null
      ensures Ready() && protocol.gun.Some? ==> l != null && fresh(l) && l.Valid() && l.rooms == []
    {
      if protocol == null || !initialized {
        return null;
      }
      l := protocol.ListenToPublishedRooms();
    }

    /** The directory callback: a listing the protocol emits replaces
        `publishedRooms`. */
    method OnRoomEvent(l: GunProtocol.DirectoryListener, key: string, data: Option<PublishedRoom>)
      requires Valid() && protocol != null && l.Valid()
      modifies this, protocol, l
      ensures Valid() && l.Valid() && protocol == old(protocol)
      ensures var s := Directory.OnRoom(old(protocol.processedRooms), old(l.rooms), key, data);
        && protocol.processedRooms == s.processed && l.rooms == s.rooms
        && publishedRooms == (if s.emitted.Some? then s.emitted.value else old(publishedRooms))
      ensures protocol.writes == old(protocol.writes) && protocol.presenceUsers == old(protocol.presenceUsers)
      ensures messages == old(messages) && onlineUsers == old(onlineUsers) && error == old(error)
    {
      var emitted := protocol.OnRoomEvent(l, key, data);
      if emitted.Some? {
        publishedRooms := emitted.value;
      }
    }

    /** `parseRoomFromUrl(hash)`: `null` (here `None`) unless an instance is
        ready, then the protocol's parser. */
    method ParseRoomFromUrl(hash: string, parseKeys: string -> Option<RoomKeys>) returns (r: Option<(string, RoomKeys)>)
      ensures !Ready() ==> r.None?
      ensures Ready() ==> r == Capability.ParseRoomFromUrl(hash, parseKeys)
    {
      if protocol == null || !initialized {
        return None;
      }
      r := Capability.ParseRoomFromUrl(hash, parseKeys);
    }

    /** `generateRoomUrl(roomId, keys)`: `""` unless an instance is ready. */
    method GenerateRoomUrl(origin: string, pathname: string, roomId: string, keys: RoomKeys,
                           stringify: RoomKeys -> string) returns (link: string)
      ensures !Ready() ==> link == []
      ensures Ready() ==> link == Capability.GenerateRoomUrl(origin, pathname, roomId, keys, stringify)
    {
      if protocol == null || !initialized {
        return [];
      }
      link := Capability.GenerateRoomUrl(origin, pathname, roomId, keys, stringify);
    }

    /** `sendMessage(text, username)`: nothing without a current room, with a
        blank text or an empty username. Otherwise the trimmed text goes to
        the protocol's `sendMessage`; a missing instance, falsy keys or a
        failed encryption show "Failed to send message". */
    method SendMessage(text: string, username: string, now: nat, fraction: seq<Base36Digit>,
                       stringify: Message -> string, encrypt: (string, RoomKeys) -> Result<string>)
      requires Valid()
      modifies this, protocol
      ensures Valid() && protocol == old(protocol)
      ensures currentRoom == old(currentRoom) && messages == old(messages) && cleanups == old(cleanups)
      ensures protocol != null ==> protocol.State() == old(protocol.State())
      ensures currentRoom.None? || Blank(text) || username == [] ==>
        error == old(error) && (protocol != null ==> protocol.writes == old(protocol.writes))
      ensures currentRoom.Some? && !Blank(text) && username != [] && protocol == null ==>
        error == Some("Failed to send message")
      ensures currentRoom.Some? && !Blank(text) && username != [] && protocol != null ==>
        var room := currentRoom.value;
        var m := Message(Trim(text), username, now, GenerateMessageId(now, fraction));
        if room.keys.FalsyKeys? || encrypt(stringify(m), room.keys).Err? then
          error == Some("Failed to send message") && protocol.writes == old(protocol.writes)
        else
          && error == old(error)
          && protocol.writes == old(protocol.writes)
             + [Append(room.messagesRef, Ciphertext(encrypt(stringify(m), room.keys).value))]
    {
      if currentRoom.None? || Blank(text) || username == [] {
        return;
      }
      if protocol == null {
        error := Some("Failed to send message");
        return;
      }
      var r := protocol.SendMessage(currentRoom.value, Trim(text), username, now, fraction, stringify, encrypt);
      if r.Err? {
        error := Some("Failed to send message");
      }
    }

    /** Shared tail of `createNewRoom` and `joinRoom`: the room becomes
        current, the list and the hook's processed set are emptied, and the
        message listener's cleanup is stored. */
    twostate predicate Entered(room: ChatRoom)
      reads this
    {
      && currentRoom == Some(room) && roomId == Some(room.id) && roomKeys == Some(room.keys)
      && messages == [] && processedMessagesRef == {}
      && cleanups == old(cleanups) + [room.messagesRef]
      && error == old(error)
    }

    /** The room-entering steps of `createNewRoom` and `joinRoom`. */
    method Enter(room: ChatRoom)
      modifies this
      ensures Entered(room)
      ensures protocol == old(protocol) && initialized == old(initialized) && url == old(url)
    {
      currentRoom := Some(room);
      roomId := Some(room.id);
      roomKeys := Some(room.keys);
      messages := [];
      processedMessagesRef := {};
      cleanups := cleanups + [room.messagesRef];
    }

    /** `createNewRoom()`: with no ready instance nothing happens. Otherwise
        the protocol creates a room; on success the hook enters it and puts
        its link in the address bar, on failure it shows "Failed to create
        room". */
    method CreateNewRoom(now: nat, fraction: seq<Base36Digit>, pair: Result<RoomKeys>,
                         origin: string, pathname: string, stringify: RoomKeys -> string)
      requires Valid()
      modifies this
      ensures Valid() && protocol == old(protocol) && initialized == old(initialized)
      ensures !Ready() ==> unchanged(this)
      ensures Ready() && (protocol.gun.None? || pair.Err?) ==>
        && error == Some("Failed to create room")
        && currentRoom == old(currentRoom) && messages == old(messages) && cleanups == old(cleanups)
        && url == old(url)
      ensures Ready() && protocol.gun.Some? && pair.Ok? ==>
        var id := GenerateRoomId(now, fraction);
        && Entered(ChatRoom(id, pair.value, ChatPath(id)))
        && url == Capability.GenerateRoomUrl(origin, pathname, id, pair.value, stringify)
    {
      if protocol == null || !initialized {
        return;
      }
      var r := protocol.CreateRoom(now, fraction, pair);
      if r.Err? {
        error := Some("Failed to create room");
        return;
      }
      var room := r.value;
      url := Capability.GenerateRoomUrl(origin, pathname, room.id, room.keys, stringify);
      Enter(room);
    }

    /** `joinRoom(roomId, keys)`: with no ready instance nothing happens; a
        protocol without a store makes it show "Failed to join room";
        otherwise the hook enters the room. */
    method JoinRoom(id: string, keys: RoomKeys)
      requires Valid()
      modifies this
      ensures Valid() && protocol == old(protocol) && initialized == old(initialized)
      ensures !Ready() ==> unchanged(this)
      ensures Ready() && protocol.gun.None? ==>
        && error == Some("Failed to join room")
        && currentRoom == old(currentRoom) && messages == old(messages) && cleanups == old(cleanups)
      ensures Ready() && protocol.gun.Some? ==> Entered(ChatRoom(id, keys, ChatPath(id))) && url == old(url)
    {
      if protocol == null || !initialized {
        return;
      }
      var r := protocol.SetupRoom(id, keys);
      if r.Err? {
        error := Some("Failed to join room");
        return;
      }
      Enter(r.value);
    }

    /** The message callback of a room the hook entered: the protocol's
        handler for one event, then the `setMessages` update for what it
        delivers. */
    method OnMessageEvent(e: MessageIntake.Event, parse: string -> Option<Message>)
      requires Valid() && protocol != null
      modifies this, protocol
      ensures Valid() && protocol == old(protocol)
      ensures var r := MessageIntake.Receive(old(protocol.processedMessages), e, parse);
        && protocol.processedMessages == r.processed
        && messages == (if r.delivered.Some? then MessageIntake.AddMessage(old(messages), r.delivered.value)
                        else old(messages))
      ensures protocol.writes == old(protocol.writes) && error == old(error) && currentRoom == old(currentRoom)
    {
      var delivered, failed := protocol.HandleMessage(e, parse);
      if delivered.Some? {
        messages := MessageIntake.AddMessage(messages, delivered.value);
      }
    }

    /** `publishRoom(data)`: with no ready instance nothing happens; a
        protocol without a store makes it show "Failed to publish room". */
    method PublishRoom(data: PublishRoomData, now: nat, fraction: seq<Base36Digit>)
      requires Valid()
      modifies this, protocol
      ensures Valid() && protocol == old(protocol)
      ensures protocol != null ==> protocol.State() == old(protocol.State())
      ensures !Ready() ==> unchanged(this) && (protocol != null ==> unchanged(protocol))
      ensures Ready() && protocol.gun.None? ==>
        error == Some("Failed to publish room") && protocol.writes == old(protocol.writes)
      ensures Ready() && protocol.gun.Some? ==>
        var id := GenerateRoomId(now, fraction);
        && error == old(error)
        && protocol.writes == old(protocol.writes) + [Put(PublicRoomsPath + [id],
             Record(PublishedRoom(id, data.name, data.description, data.roomUrl, now, data.createdBy)))]
    {
      if protocol == null || !initialized {
        return;
      }
      var r := protocol.PublishRoom(data, now, fraction);
      if r.Err? {
        error := Some("Failed to publish room");
      }
    }

    /** `removePublishedRoom(roomId)`: the same guard; failure shows "Failed
        to remove published room". */
    method RemovePublishedRoom(id: string)
      requires Valid()
      modifies this, protocol
      ensures Valid() && protocol == old(protocol)
      ensures protocol != null ==> protocol.State() == old(protocol.State())
      ensures !Ready() ==> unchanged(this) && (protocol != null ==> unchanged(protocol))
      ensures Ready() && protocol.gun.None? ==>
        error == Some("Failed to remove published room") && protocol.writes == old(protocol.writes)
      ensures Ready() && protocol.gun.Some? ==>
        error == old(error) && protocol.writes == old(protocol.writes) + [Put(PublicRoomsPath + [id], Null)]
    {
      if protocol == null || !initialized {
        return;
      }
      var r := protocol.RemovePublishedRoom(id);
      if r.Err? {
        error := Some("Failed to remove published room");
      }
    }

    /** The "reset states" step of `retryConnection`: no room, no messages,
        no users, and the hook's processed set cleared. */
    method ResetRoomState()
      modifies this
      ensures currentRoom.None? && roomId.None? && roomKeys.None?
      ensures messages == [] && onlineUsers == [] && processedMessagesRef == {}
      ensures protocol == old(protocol) && initialized == old(initialized) && error == old(error)
      ensures isLoading == old(isLoading) && isConnected == old(isConnected) && url == old(url)
      ensures publishedRooms == old(publishedRooms) && cleanups == old(cleanups) && detached == old(detached)
    {
      currentRoom := None;
      roomId := None;
      roomKeys := None;
      messages := [];
      onlineUsers := [];
      processedMessagesRef := {};
    }

    /** `retryConnection()` up to the page reload: the held instance is
        destroyed and dropped, every cleanup runs, the room state is reset,
        and the registry forgets its instance. */
    method RetryConnection()
      requires Valid()
      modifies this, protocol, registry, registry.instance
      ensures Valid()
      ensures error.None? && isLoading && !initialized && protocol == null
      ensures old(protocol) != null ==>
        old(protocol).gun.None? && !old(protocol).isInitialized && old(protocol).processedMessages == {}
      ensures detached == old(detached) + old(cleanups) && cleanups == []
      ensures currentRoom.None? && roomId.None? && roomKeys.None?
      ensures messages == [] && onlineUsers == [] && processedMessagesRef == {}
      ensures publishedRooms == old(publishedRooms)
      ensures registry.instance == null
    {
      error := None;
      isLoading := true;
      initialized := false;
      var held := protocol;
      if held != null {
        held.Destroy();
        protocol := null;
      }
      RunCleanups();
      ResetRoomState();
      var registered := registry.instance;
      registry.ResetEph();
      if held != null && held != registered {
        assert held.gun.None? && !held.isInitialized && held.processedMessages == {};
      }
    }
  }
}
