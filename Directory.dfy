/** The public room directory cache behind `listenToPublishedRooms`
    (lib/gun-protocol.ts): each store event under `public_rooms` is checked
    against an instance-wide set of dedup keys `roomId_createdAt`; a
    well-formed record is stored in the listener's own map under its store
    key, anything else removes that key; the listener is then handed the
    map's values sorted newest first. */
module Directory {
  import opened Base
  import opened Types
  import opened Keyed
  import opened Sorting

  function RoomId(r: PublishedRoom): string { r.id }

  /** `${roomId}_${roomData?.createdAt || 0}`; a missing value counts as 0. */
  function DedupKey(roomId: string, data: Option<PublishedRoom>): string {
    roomId + "_" + IntToString(if data.Some? then data.value.createdAt else 0)
  }

  /** `roomData && roomData.name && roomData.roomUrl`. */
  predicate WellFormed(data: Option<PublishedRoom>) {
    data.Some? && data.value.name != [] && data.value.roomUrl != []
  }

  /** `(a, b) => b.createdAt - a.createdAt`: `a` may precede `b`. */
  predicate NewerFirst(a: PublishedRoom, b: PublishedRoom) {
    b.createdAt - a.createdAt <= 0
  }

  lemma NewerFirstIsTotalPreorder()
    ensures TotalPreorder(NewerFirst)
  {
  }

  /** `Array.from(rooms.values()).sort(...)`. */
  function Listing(rooms: seq<PublishedRoom>): seq<PublishedRoom> {
    SortBy(rooms, NewerFirst)
  }

  /** The handler's effect: the instance-wide dedup set, the listener's map,
      and the list passed to `onRoomsChange`, if it was called. */
  datatype Step = Step(processed: set<string>, rooms: seq<PublishedRoom>, emitted: Option<seq<PublishedRoom>>)

  /** One invocation of the room handler for the store key `roomId`. */
  function OnRoom(processed: set<string>, rooms: seq<PublishedRoom>, roomId: string,
                  data: Option<PublishedRoom>): Step
  {
    var k := DedupKey(roomId, data);
    if k in processed then Step(processed, rooms, None)
    else if WellFormed(data) then
      var rs := Upsert(rooms, data.value.(id := roomId), RoomId);
      Step(processed + {k}, rs, Some(Listing(rs)))
    else
      var rs := Remove(rooms, roomId, RoomId);
      Step(processed, rs, Some(Listing(rs)))
  }

  /** A key already processed changes nothing and calls nobody. */
  lemma OnRoomIgnoresProcessed(processed: set<string>, rooms: seq<PublishedRoom>, roomId: string,
                               data: Option<PublishedRoom>)
    requires DedupKey(roomId, data) in processed
    ensures OnRoom(processed, rooms, roomId, data) == Step(processed, rooms, None)
  {
  }

  /** A new well-formed record is stored under its store key with its `id`
      overwritten by that key, every other entry stays, and its dedup key is
      marked processed. */
  lemma OnRoomStores(processed: set<string>, rooms: seq<PublishedRoom>, roomId: string,
                     data: Option<PublishedRoom>)
    requires UniqueKeys(rooms, RoomId)
    requires DedupKey(roomId, data) !in processed && WellFormed(data)
    ensures var s := OnRoom(processed, rooms, roomId, data);
      && s.processed == processed + {DedupKey(roomId, data)}
      && UniqueKeys(s.rooms, RoomId)
      && Keys(s.rooms, RoomId) == Keys(rooms, RoomId) + {roomId}
      && data.value.(id := roomId) in s.rooms
      && (forall r :: r in rooms && r.id != roomId ==> r in s.rooms)
      && (forall r :: r in s.rooms && r.id != roomId ==> r in rooms)
  {
    UpsertSpec(rooms, data.value.(id := roomId), RoomId);
  }

  /** Anything else (a tombstone, a record without name or URL) drops the
      store key from the map and leaves the dedup set as it was. */
  lemma OnRoomDeletes(processed: set<string>, rooms: seq<PublishedRoom>, roomId: string,
                      data: Option<PublishedRoom>)
    requires UniqueKeys(rooms, RoomId)
    requires DedupKey(roomId, data) !in processed && !WellFormed(data)
    ensures var s := OnRoom(processed, rooms, roomId, data);
      && s.processed == processed
      && UniqueKeys(s.rooms, RoomId)
      && Keys(s.rooms, RoomId) == Keys(rooms, RoomId) - {roomId}
      && (forall r :: r in rooms && r.id != roomId ==> r in s.rooms)
  {
    RemoveSpec(rooms, roomId, RoomId);
  }

  /** Whenever the listener is called, it gets every stored room exactly once,
      newest first. */
  lemma OnRoomEmitsNewestFirst(processed: set<string>, rooms: seq<PublishedRoom>, roomId: string,
                               data: Option<PublishedRoom>)
    ensures var s := OnRoom(processed, rooms, roomId, data);
      s.emitted.Some? ==>
        && multiset(s.emitted.value) == multiset(s.rooms)
        && (forall i, j :: 0 <= i < j < |s.emitted.value| ==>
              s.emitted.value[i].createdAt >= s.emitted.value[j].createdAt)
  {
    var s := OnRoom(processed, rooms, roomId, data);
    if s.emitted.Some? {
      NewerFirstIsTotalPreorder();
      SortBySorted(s.rooms, NewerFirst);
      SortByPermutes(s.rooms, NewerFirst);
    }
  }

  /** A creation event replayed after the room's tombstone does not bring the
      room back: its dedup key was recorded the first time. */
  lemma ReplayAfterTombstone(processed: set<string>, rooms: seq<PublishedRoom>, roomId: string,
                             record: PublishedRoom)
    requires UniqueKeys(rooms, RoomId)
    requires DedupKey(roomId, Some(record)) !in processed && WellFormed(Some(record))
    requires DedupKey(roomId, None) !in processed + {DedupKey(roomId, Some(record))}
    ensures var s1 := OnRoom(processed, rooms, roomId, Some(record));
      var s2 := OnRoom(s1.processed, s1.rooms, roomId, None);
      var s3 := OnRoom(s2.processed, s2.rooms, roomId, Some(record));
      && roomId in Keys(s1.rooms, RoomId)
      && roomId !in Keys(s3.rooms, RoomId)
      && s3.emitted.None?
  {
    var s1 := OnRoom(processed, rooms, roomId, Some(record));
    OnRoomStores(processed, rooms, roomId, Some(record));
    OnRoomDeletes(s1.processed, s1.rooms, roomId, None);
  }

  /** The dedup set is shared by every listener of an instance, so a listener
      attached later, starting from an empty map, ignores every room event an
      earlier listener has already processed: it is never called and its map
      stays empty. */
  lemma LaterListenerMissesSeenRooms(processed: set<string>, roomId: string, data: Option<PublishedRoom>)
    requires DedupKey(roomId, data) in processed
    ensures OnRoom(processed, [], roomId, data) == Step(processed, [], None)
  {
  }

  /** A record whose `createdAt` is missing or 0 shares its dedup key with
      the tombstone of its own store key, so once it has been seen its
      tombstone is ignored and the room cannot be removed from the map. */
  lemma TombstoneOfZeroTimestampIgnored(processed: set<string>, rooms: seq<PublishedRoom>, roomId: string,
                                        record: PublishedRoom)
    requires DedupKey(roomId, Some(record)) !in processed && WellFormed(Some(record))
    requires record.createdAt == 0
    ensures var s1 := OnRoom(processed, rooms, roomId, Some(record));
      var s2 := OnRoom(s1.processed, s1.rooms, roomId, None);
      && s2 == Step(s1.processed, s1.rooms, None)
      && record.(id := roomId) in s2.rooms
  {
    var x := record.(id := roomId);
    assert DedupKey(roomId, Some(record)) == DedupKey(roomId, None);
    var f := Find(rooms, x.id, RoomId);
    if f.Some? {
      assert Upsert(rooms, x, RoomId)[f.value] == x;
    } else {
      assert Upsert(rooms, x, RoomId)[|rooms|] == x;
    }
  }
}
