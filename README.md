# shogun-eph, modelled in Dafny

shogun-eph is a browser chat client built on the GunDB replicated store and
its SEA crypto library. A chat room is a capability link,
`origin + path + "#" + roomId + "@" + encodeURIComponent(JSON(keys))`: whoever holds
the link can read and write the room's encrypted message log. Clients
announce themselves with heartbeats in a per-room presence node. They can
also publish rooms to a public directory.

This project models the logic between the store's subscription callbacks and
the UI:

- **The protocol object `Eph` and its process-wide singleton**
  (lib/gun-protocol.ts). It has three event handlers:
  - messages, deduplicated by store key;
  - presence, with a 30-second window;
  - the public room directory, deduplicated by `id_createdAt`.
  It also has the link codec, room and id generation, publishing, and the
  `initialize`/`destroy` lifecycle.
- **The React hook `useEph`** (hooks/use-gun-protocol.ts). It gates every
  operation on "an instance is held and initialised", keeps a list of
  cleanups, and resets everything on retry.
- **The chat page `GunChat`** (app/page.tsx). It covers its own copy of
  link parsing with fallbacks, room creation, the chat handler with the
  message-list update, the send guard, and the two global counters.
- **The room presence hook `useRoomGunPresence`**
  (hooks/use-gun-presence.ts). It has heartbeats, a listener with no
  self-skip, and a periodic offline re-check that re-emits only when a flag
  flips.
- **The users badge** (components/online-users.tsx), which counts online
  users and sorts them with a three-level order.
- **The public rooms page** (app/public-rooms/page.tsx). It covers the
  one-shot subscription, the search filter, the relative date buckets and
  the count line.

Objects whose fields the source updates in place are classes:
`GunProtocol.Eph`, `GunProtocol.DirectoryListener`, `GunProtocol.EphRegistry`,
`EphHook.UseEph`, `ChatPage.GunChat`, `RoomPresenceHook.RoomPresence` and
`PublicRooms.PublicRoomsPage`. Each store event is one call of a handler
method, taken as atomic. The handlers' logic is also stated as pure functions,
with lemmas about runs of events. For example, `MessageIntake.Receive`,
`Directory.OnRoom` and `Presence.OnProtocolPresence` are such functions, and
the methods are proved equal to them. Every store write (`put`, or `set`,
which appends) goes to an object's `writes` log. The log is how the model
states what the store receives.

Foreign calls and browser services are parameters:

- `JSON.stringify` and `JSON.parse` (`None` where it throws);
- the outcomes of `SEA.pair`, `SEA.encrypt` and `SEA.decrypt`;
- `Date.now` (`now`);
- the digits `Math.random` contributes to ids (`fraction`);
- `localeCompare` (`localeLe`, a total preorder);
- `toLowerCase` (`lower`);
- `toLocaleDateString` (`localeDate`);
- `window.location.origin` and `pathname`;
- whether the Gun and SEA scripts load.

`encodeURIComponent`, `decodeURIComponent`, `split`/`join`, `trim`,
`includes`, `Number.prototype.toString(radix)`, `Map` and the stable
`Array.prototype.sort` are modelled concretely (modules `Uri`, `Base`,
`Keyed`, `Sorting`). So the link round trip is proved, not assumed.

Behaviour of the code that the model makes explicit:

- **Shared directory dedup set.** The dedup set `processedRooms` belongs to
  the `Eph` instance and is shared by all its directory listeners. A listener
  attached later never hears of a room an earlier one already processed.
- **Zero-timestamp rooms cannot be removed.** A record with `createdAt` 0 or
  missing has the same dedup key as the tombstone of its own store key. Once
  it has been seen, its removal is ignored.
- **The lib presence tombstone keeps the user.** The null tombstone that
  `listenToPresence`'s cleanup writes does not remove that user from any
  peer's map; it is only skipped. Only the 30-second window hides the user.
- **The directory page unsubscribes for good.** Once its subscription is
  set up, any later change of the hook's connection or loading state runs
  the effect's cleanup. The guard stops it from attaching again, so after a
  reconnect the list stops updating.
- **The hook's processed set does nothing.** `useEph`'s
  `processedMessagesRef` is only ever cleared, never filled. Message
  deduplication happens in the instance's own set.
- **The directory handler returns early on a seen key.** An event whose
  dedup key was seen leaves the cache alone and calls nobody
  (lib/gun-protocol.ts:399), even when the record's contents changed: it is
  not re-evaluated.
- **Processed sets survive cancellation.** Cancelling a listener does not
  clear the processed sets; only `destroy` does.

## Model

| member | source | states |
|---|---|---|
| Capability.SplitFragmentNone | lib/gun-protocol.ts:331-343 | the split yields nothing exactly when the hash holds no `@` (the empty hash included) |
| Capability.SplitFragmentSome | lib/gun-protocol.ts:334-341 | a successful split cuts at the first `@`: the room id holds no `@` and the blob is all the rest, later `@`s included |
| Capability.SplitFragmentOf | lib/gun-protocol.ts:334-341 | conversely, every `roomId@blob` with an `@`-free room id splits back into exactly that room id and blob |
| Capability.ParseRoomFromUrlSpec | lib/gun-protocol.ts:331-353 | `parseRoomFromUrl` returns `(roomId, keys)` iff the hash is `roomId@blob` with an `@`-free room id and the blob URI-decodes and JSON-parses to `keys`; every other hash gives `null`, never an exception |
| Capability.ReadRoomLinkAgrees | app/page.tsx:191-221 | the page's inline parser agrees with the protocol's on every hash; "no `@`" and "keys that do not decode" are told apart, and the latter is exactly a `null` from the protocol on a hash with `@` |
| Capability.GeneratedUrlParses | lib/gun-protocol.ts:358-361 | the link round-trips: the fragment of `generateRoomUrl(roomId, keys)` parses back to `(roomId, keys)` in both parsers, for an `@`-free room id, an address without `#`, and JSON that reads back what it wrote |
| Capability.NewRoomUrlParses | app/page.tsx:235-242 | the link of every freshly generated room round-trips |
| Capability.GenerateRoomId | app/page.tsx:356-358 | generated room ids start with `room_` and hold neither `@` nor `#` |
| Capability.GenerateMessageId | lib/gun-protocol.ts:446-448 | message ids are non-empty and hold neither `@` nor `#` |
| Uri.EncodeURIComponent | lib/gun-protocol.ts:359 | `encodeURIComponent` never emits `@` (nor `#`) |
| Uri.DecodeEncode | lib/gun-protocol.ts:346 | `decodeURIComponent(encodeURIComponent(s)) == s` for every string |
| Base.JoinSplit | lib/gun-protocol.ts:334-340 | `split("@")` followed by `join("@")` gives the string back |
| Base.SplitCount | lib/gun-protocol.ts:338-343 | `split` yields one part exactly when the separator is absent, so the `parts.length === 1` branch is unreachable |
| Base.TrimSpec | app/page.tsx:322-326 | `trim()` is the contiguous slice left once the white space before and after it is removed: only white space precedes and follows it, it has none at either end, and it is empty exactly when the text is all white space |
| Base.Includes | app/public-rooms/page.tsx:44-46 | `includes(sub)` holds exactly when `sub` occurs at some index |
| MessageIntake.ReceiveProcessed | lib/gun-protocol.ts:207-245 | a store key is consumed exactly when it is new, its value a non-empty string and decryption truthy, so a failed decrypt stays retriable and an invalid payload's key is consumed; `onError` fires exactly when decryption throws |
| MessageIntake.ReceiveDelivers | lib/gun-protocol.ts:208-238 | a message is delivered only for an unprocessed key, which it marks processed, and only with non-empty `text` and `username` |
| MessageIntake.ReceiveAnonymous | lib/gun-protocol.ts:221-231 | plaintext that is not JSON arrives as `{text, "Anonymous", now, id: key}` |
| MessageIntake.DeliveredAtMostOnce | lib/gun-protocol.ts:207-245 | over any run of store events, every key reaches `onMessage` at most once, never a key processed before the run, and is processed afterwards |
| MessageIntake.AddMessageNew | hooks/use-gun-protocol.ts:239-245 | a new id grows the list by exactly that message (same multiset plus it) and, on a sorted list, is a stable insertion by timestamp |
| MessageIntake.AddMessageIdempotent | app/page.tsx:302-308 | the update always leaves the id listed, and applying it twice equals applying it once |
| MessageIntake.AddMessageKeepsInvariant | hooks/use-gun-protocol.ts:274-280 | the update keeps the list sorted ascending by timestamp and keeps ids unique |
| Sorting.SortByPermutes | lib/gun-protocol.ts:409-411 | the stable sort neither adds nor drops an element |
| Sorting.SortBySorted | lib/gun-protocol.ts:409-411 | the stable sort's result is sorted by its comparator when the comparator is a total preorder |
| Sorting.SortAppendSorted | app/page.tsx:306-307 | sorting a sorted list with one element appended is one stable insertion of it |
| Keyed.UpsertSpec | lib/gun-protocol.ts:300-304 | `Map.set` leaves the key present with the new value, every other entry in place, and keys unique |
| Keyed.RemoveSpec | lib/gun-protocol.ts:405 | `Map.delete` removes the key and keeps every other entry, keys unique |
| Directory.OnRoomIgnoresProcessed | lib/gun-protocol.ts:398-399 | an event whose `id_createdAt` key was processed changes nothing and emits nothing |
| Directory.OnRoomStores | lib/gun-protocol.ts:401-403 | a new record with `name` and `roomUrl` is stored under the store key with `id` overwritten, every other entry kept, and its dedup key recorded |
| Directory.OnRoomDeletes | lib/gun-protocol.ts:404-406 | any other value removes that id, keeps every other entry, and records nothing |
| Directory.OnRoomEmitsNewestFirst | lib/gun-protocol.ts:409-413 | each emitted list holds exactly the cached rooms, `createdAt` descending |
| Directory.ReplayAfterTombstone | lib/gun-protocol.ts:396-413 | a creation event replayed after the room's tombstone does not bring the room back, and emits nothing |
| Directory.LaterListenerMissesSeenRooms | lib/gun-protocol.ts:394-399 | a listener attached later ignores every room an earlier listener of the instance processed |
| Directory.TombstoneOfZeroTimestampIgnored | lib/gun-protocol.ts:398-405 | a record with `createdAt` 0 shares its dedup key with its tombstone, so the tombstone is ignored and the room stays |
| Presence.OnlineWithinSpec | lib/gun-protocol.ts:307-316 | a user is reported exactly when held with `now - lastSeen < 30000`, flagged online |
| Presence.OnProtocolPresenceSpec | lib/gun-protocol.ts:296-317 | the own key is skipped; a numeric `lastSeen` upserts the user online; anything else (the tombstone included) leaves the map; every other event reports the 30 s list; keys stay unique |
| Presence.RecheckAllSpec | hooks/use-gun-presence.ts:60-69 | a check keeps every key, its position and `lastSeen`, sets each flag to `now - lastSeen < 15000`, changes the map exactly when some flag flips, and is idempotent |
| Presence.DecayFlipsOnce | hooks/use-gun-presence.ts:64 | with no newer heartbeat and ascending check times, an online user flips at most once, and exactly once iff some check is 15 s or more after `lastSeen` |
| Presence.ExpiredStaysOffline | hooks/use-gun-presence.ts:64-68 | an offline user whose heartbeat is 15 s old never flips back without a new heartbeat |
| OnlineUsers.OnlineCountExtremes | components/online-users.tsx:23 | the count is 0 exactly when nobody is online and the list length exactly when everybody is |
| OnlineUsers.OnlineCountPermutation | components/online-users.tsx:23-24 | reordering the users does not change the count |
| OnlineUsers.UserBeforeIsTotalPreorder | components/online-users.tsx:24-33 | the comparator is a total preorder whenever `localeCompare` is |
| OnlineUsers.SortedUsersSpec | components/online-users.tsx:24-33 | the sorted copy is a permutation with the same count; the current user, if present, is first; among the others online precedes offline; equal status is in username order |
| GunProtocol.Eph.Initialize | lib/gun-protocol.ts:77-137 | a no-op once initialised; otherwise succeeds, with a store for the configured relay, exactly when the libraries are present or both scripts load and the globals appear; a script that fails rejects with "Failed to load <its URL>" (gun.js first, then sea.js), loaded scripts without the globals give "Failed to load GunDB libraries"; every failure leaves it uninitialised |
| GunProtocol.Eph.CreateRoom | lib/gun-protocol.ts:167-180 | without a store "GunDB not initialized"; otherwise a `room_` id, the generated key pair and the node `chat_<id>` |
| GunProtocol.Eph.SetupRoom | lib/gun-protocol.ts:185-195 | without a store "GunDB not initialized"; otherwise the room on node `chat_<id>` |
| GunProtocol.Eph.HandleMessage | lib/gun-protocol.ts:207-245 | one event's effect on `processedMessages`, the delivered message and `onError` is exactly `MessageIntake.Receive` |
| GunProtocol.Eph.SendMessage | lib/gun-protocol.ts:258-277 | falsy keys throw "Invalid room configuration"; otherwise the stamped message's ciphertext is appended to the room's node, or the encryption error is returned |
| GunProtocol.Eph.ListenToPresence | lib/gun-protocol.ts:282-293 | attaches iff there is a store, writing the own `{lastSeen: now}` heartbeat first |
| GunProtocol.Eph.OnPresenceEvent | lib/gun-protocol.ts:296-317 | one event's effect on the presence map and the emitted list is exactly `Presence.OnProtocolPresence` |
| GunProtocol.Eph.StopPresence | lib/gun-protocol.ts:322-325 | the cleanup writes the null tombstone under the own username and nothing else |
| GunProtocol.Eph.PublishRoom | lib/gun-protocol.ts:366-382 | without a store "GunDB not initialized"; otherwise one record with a fresh `room_` id and `createdAt = now` under `public_rooms` |
| GunProtocol.Eph.RemovePublishedRoom | lib/gun-protocol.ts:427-432 | without a store "GunDB not initialized"; otherwise a null tombstone under `public_rooms/<id>` |
| GunProtocol.Eph.ListenToPublishedRooms | lib/gun-protocol.ts:387-394 | without a store nothing is attached; otherwise a listener with an empty map of its own |
| GunProtocol.Eph.OnRoomEvent | lib/gun-protocol.ts:396-414 | one event's effect on `processedRooms`, the listener's map and the emitted list is exactly `Directory.OnRoom` |
| GunProtocol.Eph.Destroy | lib/gun-protocol.ts:453-460 | every set and map emptied, the store dropped, uninitialised |
| GunProtocol.EphRegistry.CreateEph | lib/gun-protocol.ts:467-472 | returns the existing instance, ignoring the config, or registers a new one built from it |
| GunProtocol.EphRegistry.GetEph | lib/gun-protocol.ts:473-475 | returns the registered instance |
| GunProtocol.EphRegistry.ResetEph | lib/gun-protocol.ts:477-483 | destroys and forgets the instance, and clears `isInitializing` |
| EphHook.UseEph.InitEffect | hooks/use-gun-protocol.ts:74-110 | bails when already initialised; otherwise reuses the registered instance or creates one for its relay, and is initialised iff the instance initialises, else shows "Failed to initialize connection"; loading ends |
| EphHook.UseEph.RunCleanups | hooks/use-gun-protocol.ts:112-115 | every stored cleanup runs once, in order, and the list is emptied |
| EphHook.UseEph.ListenToPresence | hooks/use-gun-protocol.ts:119-132 | attaches only with a ready instance and a non-empty username, and then as the protocol does |
| EphHook.UseEph.OnPresenceEvent | hooks/use-gun-protocol.ts:123-129 | a list the protocol emits replaces `onlineUsers` |
| EphHook.UseEph.ListenToPublishedRooms | hooks/use-gun-protocol.ts:135-143 | no listener unless an instance is ready |
| EphHook.UseEph.OnRoomEvent | hooks/use-gun-protocol.ts:138-140 | a listing the protocol emits replaces `publishedRooms` |
| EphHook.UseEph.ParseRoomFromUrl | hooks/use-gun-protocol.ts:146-149 | `null` unless an instance is ready, then the protocol's parser |
| EphHook.UseEph.GenerateRoomUrl | hooks/use-gun-protocol.ts:152-155 | `""` unless an instance is ready, then the protocol's link |
| EphHook.UseEph.SendMessage | hooks/use-gun-protocol.ts:201-213 | nothing without a room, with blank text or an empty username; otherwise the trimmed text is sent, and any failure shows "Failed to send message" |
| EphHook.UseEph.CreateNewRoom | hooks/use-gun-protocol.ts:219-257 | inert unless ready; on success the new room is current, the list and processed set are emptied, the link goes to the address bar and exactly one cleanup is pushed; on failure "Failed to create room" |
| EphHook.UseEph.JoinRoom | hooks/use-gun-protocol.ts:258-292 | inert unless ready; otherwise the same reset and one pushed cleanup, or "Failed to join room" without a store |
| EphHook.UseEph.OnMessageEvent | hooks/use-gun-protocol.ts:236-246 | the protocol's handler followed by the `setMessages` update (`MessageIntake.AddMessage`) |
| EphHook.UseEph.PublishRoom | hooks/use-gun-protocol.ts:298-306 | inert unless ready; the protocol's publish, or "Failed to publish room" |
| EphHook.UseEph.RemovePublishedRoom | hooks/use-gun-protocol.ts:307-315 | inert unless ready; the protocol's tombstone, or "Failed to remove published room" |
| EphHook.UseEph.RetryConnection | hooks/use-gun-protocol.ts:158-182 | the instance is destroyed and dropped, every cleanup runs, room, keys, messages and users are reset, and the registry is empty |
| ChatPage.IncrementsCount | app/page.tsx:255-260 | `k` sequential read-then-write increments, each reading the previous write, raise the shown counter by `k` (the cycle on its own; the value read is a parameter of the page's methods) |
| ChatPage.GunChat.CreateNewRoom | app/page.tsx:233-267 | on a key pair: the room id, keys, address, share link and chat node of the new room, and one write of `(count or 0) + 1` to `totalChatsCreated`; on failure only "Error creating room" |
| ChatPage.GunChat.ParseUrlAndSetupRoom | app/page.tsx:186-225 | a decodable link joins that room with no writes; keys that do not decode set "Invalid room URL. Creating a new room." and create a room; no `@` creates a room |
| ChatPage.GunChat.OnChatEvent | app/page.tsx:274-315 | the page's handler is `MessageIntake.Receive` followed by `MessageIntake.AddMessage` |
| ChatPage.GunChat.SendMessage | app/page.tsx:321-354 | nothing on blank text, no chat node, missing or falsy keys, or no username; otherwise the trimmed, stamped message's ciphertext is appended, the draft cleared and the counter incremented; an encryption failure sets "Error sending message" |
| ChatPage.GunChat.OnStatsUpdate | app/page.tsx:171-176 | each counter shows its stored value, or 0 when falsy |
| RoomPresenceHook.RoomPresence.Effect | hooks/use-gun-presence.ts:21-77 | with any input missing: timers stopped, map and list emptied; otherwise the node `room_presence_<id>`, one immediate heartbeat, both timers and the listener |
| RoomPresenceHook.RoomPresence.HeartbeatTick | hooks/use-gun-presence.ts:34-38 | writes `{lastSeen: now}` under the own username |
| RoomPresenceHook.RoomPresence.OnPresenceData | hooks/use-gun-presence.ts:47-57 | a numeric `lastSeen` upserts the user online (the own user included) and emits the sorted list; anything else changes nothing |
| RoomPresenceHook.RoomPresence.CheckOfflineUsers | hooks/use-gun-presence.ts:60-73 | the map becomes `Presence.RecheckAll` of the old one, and the sorted list is re-emitted iff some flag flipped |
| RoomPresenceHook.RoomPresence.Cleanup | hooks/use-gun-presence.ts:94-104 | timers stopped, listener detached, map and list emptied, no tombstone written |
| PublicRooms.FilteredRoomsSpec | app/public-rooms/page.tsx:42-47 | a room is listed iff its lower-cased name contains the lower-cased term, or its non-empty description does |
| PublicRooms.FilteredRoomsKeepOrder | app/public-rooms/page.tsx:42 | the listing is an order-preserving subsequence of the directory |
| PublicRooms.EmptySearchListsAll | app/public-rooms/page.tsx:42-47 | an empty search lists every room |
| PublicRooms.FormatDateSpec | app/public-rooms/page.tsx:50-62 | under one hour (the future included) "Just now"; under a day `h + "h ago"` with `h` in 1..23 the whole hours elapsed; otherwise the locale date |
| PublicRooms.CountLabelSpec | app/public-rooms/page.tsx:212-215 | the label is the count followed by "room found" for exactly one room and "rooms found" otherwise; with no search term it ends there, and otherwise the rest is ` matching "<term>"` |
| PublicRooms.PublicRoomsPage.Effect | app/public-rooms/page.tsx:32-39 | subscribes at most once, the first time the hook is connected and done loading; any later run leaves the page unsubscribed |
| PublicRooms.PublicRoomsPage.Visible | app/public-rooms/page.tsx:42-47 | the rows shown are exactly the published rooms that match the term |

## Left out

- Script loading and relay wiring are not modelled: loading the Gun and SEA scripts, constructing the Gun instance, and the relay `hi`/`bye` wiring (lib/gun-protocol.ts:113-155). Whether the libraries are present, whether each script loads and whether the globals then appear are parameters (the 500 ms wait is not modelled), and `EphHook.UseEph.OnConnectionChange` takes the connection flag as an input. The callbacks go to the config of whichever hook created the singleton; the model does not track which.
- The chat page's bootstrap before a room exists is not modelled: username handling, `localStorage`, and `initializeApp` (app/page.tsx up to line 164). `GunChat`'s store handle is given to its constructor.
- SEA `pair`, `encrypt` and `decrypt`, and JSON, are parameters or outcome values; no cryptographic property is stated.
- Gun's merge and replication, `map().on/off` and `once` are not modelled. Events are explicit handler calls. Detaching a listener is recorded only in `UseEph.detached` (the hook's cleanup list) and in the listening flags. `once` reads are the counter value passed in.
- Concurrency is not modelled. The `await` between `has(key)` and `add(key)` in both message handlers, and the lost updates of the read-then-write counters, are outside the model because each handler call is atomic.
- Timers are not modelled as time. `setInterval` is a pair of flags, and each tick is a method call.
- Locale-dependent calls are parameters: `localeCompare`, `toLowerCase` and `toLocaleDateString`.
- Rendering, modals, clipboard, `window.history` and `location.reload` are left out. The address bar is a `url` field. `retryConnection` stops before the reload.
- The UI components username-modal, share-room-modal, message-list, stats-modal and connection-status are not part of this model.
- The `!room.messagesRef` guards (lib/gun-protocol.ts:205, 262) are not modelled, because a Gun chain is always truthy.
- The page's outer `catch` (app/page.tsx:226-230) and the `parts.length === 1` branches are not modelled, because they cannot be reached; `Base.SplitCount` shows the latter.
- Non-integer, missing or non-numeric numbers are not modelled: `timestamp`, `createdAt` and `lastSeen` are integers. A missing `createdAt` makes `formatDate` print an invalid date, which the model does not show.
- The non-number `lastSeen` guard is `None`, as is every value that is not a number.
- GunProtocol.Eph.SendMessage: keys parsed from a link are any JSON value. The model has only a key pair or a falsy value, so truthy keys that are not a pair go to `encrypt` like a pair.
- ChatPage.GunChat.SendMessage: the message-counter write uses the `hasGun` flag the page held when it rendered. The model does not say whether that flag is stale.
- The `onError` callback of `listenToPublishedRooms` is never called by the source, so it is not modelled.
