/** The protocol object `Eph` of lib/gun-protocol.ts and its process-wide
    singleton. An `Eph` owns the store handle, the set of message keys it has
    consumed, the set of directory dedup keys, and the presence map; store
    events reach it through its handler methods, one call per event, each
    taken as atomic. `writes` logs every `put` and `set` the object issues,
    in order. Time, random id digits, `SEA` results and `JSON` are
    parameters. */
module GunProtocol {
  import opened Base
  import opened Types
  import opened Keyed
  import opened Capability
  import MessageIntake
  import Directory
  import Presence

  /** The store handle `Gun([relayUrl])` returns. */
  datatype Peer = Peer(relayUrl: string)

  const GunScript := "https://cdn.jsdelivr.net/npm/gun/gun.js"
  const SeaScript := "https://cdn.jsdelivr.net/npm/gun/sea.js"

  /** What the page offers when `initialize()` runs: whether `window.Gun` and
      `window.SEA` are already there, whether each of the two script tags
      loads (or is already present), and whether the globals exist after
      loading. */
  datatype LibraryEnv = LibraryEnv(preloaded: bool, gunLoads: bool, seaLoads: bool, globalsAfterLoad: bool)

  /** The libraries become available, so `initialize()` completes. */
  predicate LibrariesLoad(env: LibraryEnv) {
    env.preloaded || (env.gunLoads && env.seaLoads && env.globalsAfterLoad)
  }

  /** The map one `listenToPublishedRooms` call keeps: store key -> room. */
  class DirectoryListener {
    var rooms: seq<PublishedRoom>

    ghost predicate Valid()
      reads this
    {
      UniqueKeys(rooms, Directory.RoomId)
    }

    constructor ()
      ensures Valid() && rooms == []
    {
      rooms := [];
    }
  }

  class Eph {
    const config: EphConfig
    var gun: Option<Peer>
    var isInitialized: bool
    var processedMessages: set<string>
    var processedRooms: set<string>
    /** Declared and cleared by `destroy`, never filled. */
    var presenceRefs: set<string>
    var presenceUsers: seq<UserPresence>
    var writes: seq<Write>

    ghost predicate Valid()
      reads this
    {
      && UniqueKeys(presenceUsers, Presence.Username)
      && (isInitialized ==> gun.Some?)
    }

    /** Everything but the write log. */
    ghost function State(): (Option<Peer>, bool, set<string>, set<string>, set<string>, seq<UserPresence>)
      reads this
    {
      (gun, isInitialized, processedMessages, processedRooms, presenceRefs, presenceUsers)
    }

    constructor (config: EphConfig)
      ensures Valid() && this.config == config
      ensures gun.None? && !isInitialized
      ensures processedMessages == {} && processedRooms == {} && presenceRefs == {} && presenceUsers == []
      ensures writes == []
    {
      this.config := config;
      gun := None;
      isInitialized := false;
      processedMessages := {};
      processedRooms := {};
      presenceRefs := {};
      presenceUsers := [];
      writes := [];
    }

    /** `initialize()`. Once initialised, a call does nothing. Otherwise the
        store is set up at once when the libraries are already present;
        else the two scripts load in turn, and the first that fails rejects
        with its own URL, and when both load but the globals are still
        missing the call fails with "Failed to load GunDB libraries". Every
        failure leaves the object uninitialised. */
    method Initialize(env: LibraryEnv) returns (r: Result<()>)
      requires Valid()
      modifies this
      ensures Valid()
      ensures r.Ok? <==> old(isInitialized) || LibrariesLoad(env)
      ensures old(isInitialized) ==> State() == old(State())
      ensures !old(isInitialized) && LibrariesLoad(env) ==>
        isInitialized && gun == Some(Peer(config.relayUrl))
      ensures !old(isInitialized) && !env.preloaded ==>
        && (!env.gunLoads ==> r == Err("Failed to load " + GunScript))
        && (env.gunLoads && !env.seaLoads ==> r == Err("Failed to load " + SeaScript))
        && (env.gunLoads && env.seaLoads && !env.globalsAfterLoad ==> r == Err("Failed to load GunDB libraries"))
      ensures r.Err? ==> !isInitialized && gun == old(gun)
      ensures processedMessages == old(processedMessages) && processedRooms == old(processedRooms)
      ensures presenceRefs == old(presenceRefs) && presenceUsers == old(presenceUsers)
      ensures writes == old(writes)
    {
      if isInitialized {
        return Ok(());
      }
      if !env.preloaded {
        if !env.gunLoads {
          isInitialized := false;
          return Err("Failed to load " + GunScript);
        }
        if !env.seaLoads {
          isInitialized := false;
          return Err("Failed to load " + SeaScript);
        }
        if !env.globalsAfterLoad {
          isInitialized := false;
          return Err("Failed to load GunDB libraries");
        }
      }
      gun := Some(Peer(config.relayUrl));
      isInitialized := true;
      r := Ok(());
    }

    /** `createRoom()`: a fresh room id, the key pair `SEA.pair()` produced (or
        its failure), and the room's chat node. */
    method CreateRoom(now: nat, fraction: seq<Base36Digit>, pair: Result<RoomKeys>) returns (r: Result<ChatRoom>)
      ensures gun.None? ==> r == Err("GunDB not initialized")
      ensures gun.Some? && pair.Err? ==> r == Err(pair.error)
      ensures gun.Some? && pair.Ok? ==>
        && r.Ok?
        && r.value.id == GenerateRoomId(now, fraction) && r.value.keys == pair.value
        && r.value.messagesRef == ChatPath(r.value.id)
    {
      if gun.None? {
        return Err("GunDB not initialized");
      }
      var roomId := GenerateRoomId(now, fraction);
      match pair
      case Err(e) => r := Err(e);
      case Ok(keys) => r := Ok(ChatRoom(roomId, keys, ChatPath(roomId)));
    }

    /** `setupRoom(roomId, keys)`. */
    method SetupRoom(roomId: string, keys: RoomKeys) returns (r: Result<ChatRoom>)
      ensures gun.None? ==> r == Err("GunDB not initialized")
      ensures gun.Some? ==> r == Ok(ChatRoom(roomId, keys, ChatPath(roomId)))
    {
      if gun.None? {
        return Err("GunDB not initialized");
      }
      r := Ok(ChatRoom(roomId, keys, ChatPath(roomId)));
    }

    /** The handler `listenToMessages` subscribes, for one event: it returns
        the message handed to `onMessage`, if any, and whether `onError` was
        called. */
    method HandleMessage(e: MessageIntake.Event, parse: string -> Option<Message>)
      returns (delivered: Option<Message>, failed: bool)
      modifies this
      ensures var r := MessageIntake.Receive(old(processedMessages), e, parse);
        processedMessages == r.processed && delivered == r.delivered && failed == r.failed
      ensures gun == old(gun) && isInitialized == old(isInitialized) && processedRooms == old(processedRooms)
      ensures presenceRefs == old(presenceRefs) && presenceUsers == old(presenceUsers) && writes == old(writes)
    {
      delivered, failed := None, false;
      if e.key in processedMessages {
        return;
      }
      if e.data.Some? && e.data.value != [] {
        match e.decrypted
        case Threw =>
          failed := true;
        case Returned(p) =>
          if MessageIntake.Truthy(p) {
            processedMessages := processedMessages + {e.key};
            var m := MessageIntake.ToMessage(p, e.key, e.now, parse);
            if MessageIntake.Deliverable(m) {
              delivered := Some(m);
            }
          }
      }
    }

    /** `sendMessage(room, {text, username})`: with a falsy key value it throws
        "Invalid room configuration"; otherwise it stamps the message, encrypts
        its JSON (`encrypt` may fail) and appends the ciphertext to the room's
        chat node. */
    method SendMessage(room: ChatRoom, text: string, username: string, now: nat, fraction: seq<Base36Digit>,
                       stringify: Message -> string, encrypt: (string, RoomKeys) -> Result<string>)
      returns (r: Result<()>)
      modifies this
      ensures State() == old(State())
      ensures room.keys.FalsyKeys? ==> r == Err("Invalid room configuration") && writes == old(writes)
      ensures room.keys.KeyPair? ==>
        var m := Message(text, username, now, GenerateMessageId(now, fraction));
        match encrypt(stringify(m), room.keys)
        case Ok(c) => r.Ok? && writes == old(writes) + [Append(room.messagesRef, Ciphertext(c))]
        case Err(err) => r == Err(err) && writes == old(writes)
    {
      if room.keys.FalsyKeys? {
        return Err("Invalid room configuration");
      }
      var m := Message(text, username, now, GenerateMessageId(now, fraction));
      match encrypt(stringify(m), room.keys)
      case Err(err) =>
        r := Err(err);
      case Ok(c) =>
        writes := writes + [Append(room.messagesRef, Ciphertext(c))];
        r := Ok(());
    }

    /** `listenToPresence(roomId, username, ...)`: without a store it attaches
        nothing; otherwise it writes the own heartbeat and attaches the
        presence handler. */
    method ListenToPresence(roomId: string, username: string, now: int) returns (attached: bool)
      modifies this
      ensures State() == old(State())
      ensures attached <==> gun.Some?
      ensures attached ==> writes == old(writes) + [Put(PresencePath(roomId) + [username], Heartbeat(now))]
      ensures !attached ==> writes == old(writes)
    {
      if gun.None? {
        return false;
      }
      writes := writes + [Put(PresencePath(roomId) + [username], Heartbeat(now))];
      attached := true;
    }

    /** The presence handler for one event, for the local user `me`. */
    method OnPresenceEvent(me: string, key: string, lastSeen: Option<int>, now: int)
      returns (emitted: Option<seq<UserPresence>>)
      requires Valid()
      modifies this
      ensures Valid()
      ensures var s := Presence.OnProtocolPresence(old(presenceUsers), me, key, lastSeen, now);
        presenceUsers == s.users && emitted == s.emitted
      ensures gun == old(gun) && isInitialized == old(isInitialized)
      ensures processedMessages == old(processedMessages) && processedRooms == old(processedRooms)
      ensures presenceRefs == old(presenceRefs) && writes == old(writes)
    {
      Presence.OnProtocolPresenceSpec(presenceUsers, me, key, lastSeen, now);
      if key == me {
        return None;
      }
      if lastSeen.Some? {
        presenceUsers := Upsert(presenceUsers, UserPresence(key, lastSeen.value, true), Presence.Username);
      }
      emitted := Some(Presence.OnlineWithin(presenceUsers, now));
    }

    /** The cleanup `listenToPresence` returns: a null tombstone under the own
        username (the handler is detached as well). */
    method StopPresence(roomId: string, username: string)
      modifies this
      ensures State() == old(State())
      ensures writes == old(writes) + [Put(PresencePath(roomId) + [username], Null)]
    {
      writes := writes + [Put(PresencePath(roomId) + [username], Null)];
    }

    /** `publishRoom(data)`: a new directory entry under a fresh room id,
        stamped with the current time. */
    method PublishRoom(data: PublishRoomData, now: nat, fraction: seq<Base36Digit>) returns (r: Result<()>)
      modifies this
      ensures State() == old(State())
      ensures gun.None? ==> r == Err("GunDB not initialized") && writes == old(writes)
      ensures gun.Some? ==> r.Ok?
      ensures gun.Some? ==>
        var id := GenerateRoomId(now, fraction);
        writes == old(writes) + [Put(PublicRoomsPath + [id],
          Record(PublishedRoom(id, data.name, data.description, data.roomUrl, now, data.createdBy)))]
    {
      if gun.None? {
        return Err("GunDB not initialized");
      }
      var id := GenerateRoomId(now, fraction);
      var room := PublishedRoom(id, data.name, data.description, data.roomUrl, now, data.createdBy);
      writes := writes + [Put(PublicRoomsPath + [id], Record(room))];
      r := Ok(());
    }

    /** `removePublishedRoom(roomId)`: a tombstone for the entry. */
    method RemovePublishedRoom(roomId: string) returns (r: Result<()>)
      modifies this
      ensures State() == old(State())
      ensures gun.None? ==> r == Err("GunDB not initialized") && writes == old(writes)
      ensures gun.Some? ==> r.Ok? && writes == old(writes) + [Put(PublicRoomsPath + [roomId], Null)]
    {
      if gun.None? {
        return Err("GunDB not initialized");
      }
      writes := writes + [Put(PublicRoomsPath + [roomId], Null)];
      r := Ok(());
    }

    /** `listenToPublishedRooms(...)`: without a store, nothing is attached;
        otherwise a listener with an empty map of its own. */
    method ListenToPublishedRooms() returns (l: DirectoryListener?)
      ensures gun.None? ==> l == null
      ensures gun.Some? ==> l != null && fresh(l) && l.Valid() && l.rooms == []
    {
      if gun.None? {
        return null;
      }
      l := new DirectoryListener();
    }

    /** The room handler of listener `l` for one event under `public_rooms`. */
    method OnRoomEvent(l: DirectoryListener, roomId: string, data: Option<PublishedRoom>)
      returns (emitted: Option<seq<PublishedRoom>>)
      requires l.Valid()
      modifies this, l
      ensures l.Valid()
      ensures var s := Directory.OnRoom(old(processedRooms), old(l.rooms), roomId, data);
        processedRooms == s.processed && l.rooms == s.rooms && emitted == s.emitted
      ensures gun == old(gun) && isInitialized == old(isInitialized)
      ensures processedMessages == old(processedMessages) && presenceRefs == old(presenceRefs)
      ensures presenceUsers == old(presenceUsers) && writes == old(writes)
    {
      var key := Directory.DedupKey(roomId, data);
      if key in processedRooms {
        return None;
      }
      if Directory.WellFormed(data) {
        Directory.OnRoomStores(processedRooms, l.rooms, roomId, data);
        l.rooms := Upsert(l.rooms, data.value.(id := roomId), Directory.RoomId);
        processedRooms := processedRooms + {key};
      } else {
        Directory.OnRoomDeletes(processedRooms, l.rooms, roomId, data);
        l.rooms := Remove(l.rooms, roomId, Directory.RoomId);
      }
      emitted := Some(Directory.Listing(l.rooms));
    }

    /** `destroy()`: every set and map emptied, the store handle dropped. */
    method Destroy()
      modifies this
      ensures Valid()
      ensures processedMessages == {} && processedRooms == {} && presenceRefs == {} && presenceUsers == []
      ensures gun.None? && !isInitialized
      ensures writes == old(writes)
    {
      processedMessages := {};
      processedRooms := {};
      presenceRefs := {};
      presenceUsers := [];
      gun := None;
      isInitialized := false;
    }
  }

  /** The module-level `protocolInstance` (and the `isInitializing` flag,
      which only `resetEph` touches). */
  class EphRegistry {
    var instance: Eph?
    var isInitializing: bool

    constructor ()
      ensures instance == null && !isInitializing
    {
      instance := null;
      isInitializing := false;
    }

    /** `createEph(config)`: the existing instance, whatever `config` says, or
        a new one built from `config`. */
    method CreateEph(config: EphConfig) returns (e: Eph)
      modifies this
      ensures instance == e && isInitializing == old(isInitializing)
      ensures old(instance) != null ==> e == old(instance)
      ensures old(instance) == null ==>
        && fresh(e) && e.config == config && e.Valid()
        && e.gun.None? && !e.isInitialized && e.processedMessages == {} && e.processedRooms == {}
        && e.presenceUsers == [] && e.writes == []
    {
      if instance == null {
        instance := new Eph(config);
      }
      e := instance;
    }

    /** `getEph()`. */
    method GetEph() returns (e: Eph?)
      ensures e == instance
    {
      e := instance;
    }

    /** `resetEph()`: destroys and forgets the instance, if any. */
    method ResetEph()
      modifies this, instance
      ensures instance == null && !isInitializing
      ensures old(instance) != null ==>
        && old(instance).gun.None? && !old(instance).isInitialized
        && old(instance).processedMessages == {} && old(instance).processedRooms == {}
        && old(instance).presenceRefs == {} && old(instance).presenceUsers == []
    {
      if instance != null {
        instance.Destroy();
        instance := null;
      }
      isInitializing := false;
    }
  }
}
