/** The protocol's records (lib/gun-protocol.ts), the store paths it writes
    under, and the values the external store and cipher hand back. */
module Types {
  import opened Base

  /** A room's capability bundle. `JSON.parse` of a shared link's key blob may
      yield any JSON value; `FalsyKeys` stands for one that is falsy (`null`,
      `false`, `0`, `""`), which the send path rejects. */
  datatype RoomKeys = KeyPair(pub: string, priv: string, epub: string, epriv: string) | FalsyKeys

  /** A chat message. Fields absent from a decoded payload read as `""`. */
  datatype Message = Message(text: string, username: string, timestamp: int, id: string)

  datatype UserPresence = UserPresence(username: string, lastSeen: int, isOnline: bool)

  datatype PublishedRoom = PublishedRoom(
    id: string, name: string, description: Option<string>,
    roomUrl: string, createdAt: int, createdBy: string)

  datatype PublishRoomData = PublishRoomData(
    name: string, description: Option<string>, roomUrl: string, createdBy: string)

  datatype EphConfig = EphConfig(relayUrl: string)

  /** A node of the store, named by its path from the root. */
  type StorePath = seq<string>

  function ChatPath(roomId: string): StorePath { ["chat_" + roomId] }
  function PresencePath(roomId: string): StorePath { ["room_presence_" + roomId] }
  const PublicRoomsPath: StorePath := ["public_rooms"]
  const ChatsCreatedPath: StorePath := ["protocol_stats", "totalChatsCreated"]
  const MessagesSentPath: StorePath := ["protocol_stats", "totalMessagesSent"]

  datatype ChatRoom = ChatRoom(id: string, keys: RoomKeys, messagesRef: StorePath)

  /** Values the protocol writes; `Null` is the tombstone. */
  datatype StoreValue =
    | Null
    | Heartbeat(lastSeen: int)
    | Ciphertext(data: string)
    | Record(room: PublishedRoom)
    | Count(n: int)

  /** `node.put(value)` or `node.set(value)` (append under a store-chosen key). */
  datatype Write = Put(path: StorePath, value: StoreValue) | Append(path: StorePath, value: StoreValue)

  /** What `SEA.decrypt` resolves to: something falsy (it failed), a string,
      or an object it already parsed from JSON. */
  datatype Plaintext = Falsy | Text(s: string) | Decoded(m: Message)

  /** `SEA.decrypt` either throws or resolves to a plaintext. */
  datatype Decryption = Threw | Returned(plain: Plaintext)

  /** The number stored under a counter, as `once` delivers it; `None` is
      `undefined`/`null`. */
  type CounterValue = Option<int>
}
