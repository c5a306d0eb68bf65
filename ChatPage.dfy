/** The chat page component `GunChat` (app/page.tsx) after its bootstrap:
    reading the capability link from the address, creating a room, the chat
    subscription handler with the message-list update, sending, and the two
    global counters under `protocol_stats`. Its React state and refs are the
    fields of one object; `writes` logs the `put`s and `set`s it issues. */
module ChatPage {
  import opened Base
  import opened Types
  import opened Capability
  import MessageIntake

  /** `data || 0`: what the stats listener shows for a counter value. */
  function CounterShown(data: CounterValue): int {
    if data.Some? then data.value else 0
  }

  /** `(data || 0) + 1`: what an increment writes after reading `data`. */
  function NextCount(data: CounterValue): int {
    CounterShown(data) + 1
  }

  /** The counter after `k` increments, each reading the previous write. */
  function Increments(data: CounterValue, k: nat): CounterValue
    decreases k
  {
    if k == 0 then data else Increments(Some(NextCount(data)), k - 1)
  }

  /** Sequential increments count: `k` of them raise the shown value by `k`.
      This covers the read-increment-write cycle on its own: in `GunChat`
      the value read (`count`) is a parameter of `CreateNewRoom` and
      `SendMessage`, and the lemma applies when each call reads what the
      previous one wrote (`Put(_, Count(NextCount(count)))`) and the stats
      listener (`OnStatsUpdate`) then delivers it. Interleaved clients,
      which read the same value and lose an increment, are not covered. */
  lemma {:induction false} IncrementsCount(data: CounterValue, k: nat)
    ensures CounterShown(Increments(data, k)) == CounterShown(data) + k
    decreases k
  {
    if k > 0 {
      IncrementsCount(Some(NextCount(data)), k - 1);
    }
  }

  class GunChat {
    const origin: string
    const pathname: string
    var hasGun: bool
    var roomId: Option<string>
    var roomKeys: Option<RoomKeys>
    var messages: seq<Message>
    var processedMessages: set<string>
    var shareUrl: string
    /** The address after `history.replaceState`. */
    var url: string
    var error: string
    var messagesRef: Option<StorePath>
    var username: string
    var messageText: string
    var totalChatsCreated: int
    var totalMessagesSent: int
    var writes: seq<Write>

    ghost function Session(): (Option<string>, Option<RoomKeys>, string, string, Option<StorePath>)
      reads this
    {
      (roomId, roomKeys, shareUrl, url, messagesRef)
    }

    ghost function Chat(): (seq<Message>, set<string>, string, string)
      reads this
    {
      (messages, processedMessages, username, messageText)
    }

    ghost function Stats(): (bool, int, int)
      reads this
    {
      (hasGun, totalChatsCreated, totalMessagesSent)
    }

    constructor (origin: string, pathname: string, hasGun: bool, username: string, url: string)
      ensures this.origin == origin && this.pathname == pathname && this.hasGun == hasGun
      ensures this.username == username && this.url == url
      ensures roomId.None? && roomKeys.None? && messages == [] && processedMessages == {}
      ensures shareUrl == [] && error == [] && messagesRef.None? && messageText == []
      ensures totalChatsCreated == 0 && totalMessagesSent == 0 && writes == []
    {
      this.origin := origin;
      this.pathname := pathname;
      this.hasGun := hasGun;
      this.username := username;
      this.url := url;
      roomId := None;
      roomKeys := None;
      messages := [];
      processedMessages := {};
      shareUrl := [];
      error := [];
      messagesRef := None;
      messageText := [];
      totalChatsCreated := 0;
      totalMessagesSent := 0;
      writes := [];
    }

    /** `setRoomId`, `setRoomKeys`, the share link and `setupChat`: the
        steps both ways into a room share. */
    method EnterRoom(id: string, keys: RoomKeys, stringify: RoomKeys -> string)
      modifies this
      ensures roomId == Some(id) && roomKeys == Some(keys) && messagesRef == Some(ChatPath(id))
      ensures shareUrl == GenerateRoomUrl(origin, pathname, id, keys, stringify)
      ensures url == old(url) && error == old(error) && writes == old(writes)
      ensures Chat() == old(Chat()) && Stats() == old(Stats())
    {
      roomId := Some(id);
      roomKeys := Some(keys);
      shareUrl := GenerateRoomUrl(origin, pathname, id, keys, stringify);
      messagesRef := Some(ChatPath(id));
    }

    /** What `createNewRoom` leaves behind when `SEA.pair()` yields `pair` and
        the chats counter reads `count`: the new room's id, keys, address,
        share link and chat node, and one counter write; on failure nothing
        but the error. */
    twostate predicate NewRoomCreated(now: nat, fraction: seq<Base36Digit>, pair: Result<RoomKeys>,
                                      stringify: RoomKeys -> string, count: CounterValue)
      reads this
    {
      && Chat() == old(Chat()) && Stats() == old(Stats())
      && (pair.Err? ==> Session() == old(Session()) && writes == old(writes))
      && (pair.Ok? ==>
            var id := GenerateRoomId(now, fraction);
            && roomId == Some(id) && roomKeys == Some(pair.value)
            && url == GenerateRoomUrl(origin, pathname, id, pair.value, stringify) && shareUrl == url
            && messagesRef == Some(ChatPath(id))
            && writes == old(writes) + [Put(ChatsCreatedPath, Count(NextCount(count)))])
    }

    /** `createNewRoom(gun)`. */
    method CreateNewRoom(now: nat, fraction: seq<Base36Digit>, pair: Result<RoomKeys>,
                         stringify: RoomKeys -> string, count: CounterValue)
      modifies this
      ensures NewRoomCreated(now, fraction, pair, stringify, count)
      ensures pair.Err? ==> error == "Error creating room"
      ensures pair.Ok? ==> error == old(error)
    {
      var newRoomId := GenerateRoomId(now, fraction);
      if pair.Err? {
        error := "Error creating room";
        return;
      }
      var newKeys := pair.value;
      url := GenerateRoomUrl(origin, pathname, newRoomId, newKeys, stringify);
      EnterRoom(newRoomId, newKeys, stringify);
      writes := writes + [Put(ChatsCreatedPath, Count(NextCount(count)))];
    }

    /** `parseUrlAndSetupRoom(gun)` for the address fragment `hash`: a link
        whose keys decode joins that room; a link whose keys do not sets the
        error "Invalid room URL. Creating a new room." and creates a room, as
        does a fragment without `@`. It never throws. */
    method ParseUrlAndSetupRoom(hash: string, parseKeys: string -> Option<RoomKeys>, stringify: RoomKeys -> string,
                                now: nat, fraction: seq<Base36Digit>, pair: Result<RoomKeys>, count: CounterValue)
      modifies this
      ensures ReadRoomLink(hash, parseKeys).Link? ==>
        var link := ReadRoomLink(hash, parseKeys);
        && roomId == Some(link.roomId) && roomKeys == Some(link.keys)
        && shareUrl == GenerateRoomUrl(origin, pathname, link.roomId, link.keys, stringify)
        && messagesRef == Some(ChatPath(link.roomId)) && url == old(url)
        && error == old(error) && writes == old(writes)
        && Chat() == old(Chat()) && Stats() == old(Stats())
      ensures !ReadRoomLink(hash, parseKeys).Link? ==> NewRoomCreated(now, fraction, pair, stringify, count)
      ensures ReadRoomLink(hash, parseKeys).InvalidKeys? ==>
        error == (if pair.Err? then "Error creating room" else "Invalid room URL. Creating a new room.")
      ensures ReadRoomLink(hash, parseKeys).NoRoomLink? ==>
        error == (if pair.Err? then "Error creating room" else old(error))
    {
      match ReadRoomLink(hash, parseKeys)
      case NoRoomLink =>
        CreateNewRoom(now, fraction, pair, stringify, count);
      case InvalidKeys =>
        error := "Invalid room URL. Creating a new room.";
        CreateNewRoom(now, fraction, pair, stringify, count);
      case Link(id, keys) =>
        EnterRoom(id, keys, stringify);
    }

    /** The handler `setupChat` subscribes, for one event, followed by the
        `setMessages` update for the message it accepts. */
    method OnChatEvent(e: MessageIntake.Event, parse: string -> Option<Message>)
      requires messagesRef.Some?
      modifies this
      ensures var r := MessageIntake.Receive(old(processedMessages), e, parse);
        && processedMessages == r.processed
        && messages == (if r.delivered.Some? then MessageIntake.AddMessage(old(messages), r.delivered.value)
                        else old(messages))
      ensures Session() == old(Session()) && Stats() == old(Stats()) && writes == old(writes)
      ensures error == old(error) && username == old(username) && messageText == old(messageText)
    {
      if e.key in processedMessages {
        return;
      }
      if e.data.Some? && e.data.value != [] {
        match e.decrypted
        case Threw =>
        case Returned(p) =>
          if MessageIntake.Truthy(p) {
            processedMessages := processedMessages + {e.key};
            var m := MessageIntake.ToMessage(p, e.key, e.now, parse);
            if MessageIntake.Deliverable(m) {
              messages := MessageIntake.AddMessage(messages, m);
            }
          }
      }
    }

    /** `sendMessage()`: a blank draft, a missing chat node, missing or falsy
        keys, or an empty username make it do nothing. Otherwise the trimmed
        draft is stamped, encrypted and appended to the chat node, the draft
        is cleared and the messages counter incremented; an encryption
        failure sets "Error sending message" instead. */
    method SendMessage(now: nat, fraction: seq<Base36Digit>, stringify: Message -> string,
                       encrypt: (string, RoomKeys) -> Result<string>, count: CounterValue)
      modifies this
      ensures Session() == old(Session()) && Stats() == old(Stats())
      ensures messages == old(messages) && processedMessages == old(processedMessages) && username == old(username)
      ensures var skip := Blank(old(messageText)) || messagesRef.None? || roomKeys.None? || roomKeys.value.FalsyKeys?
          || username == [];
        && (skip ==> writes == old(writes) && messageText == old(messageText) && error == old(error))
        && (!skip ==>
              var m := Message(Trim(old(messageText)), username, now, GenerateMessageId(now, fraction));
              match encrypt(stringify(m), roomKeys.value)
              case Err(_) =>
                writes == old(writes) && messageText == old(messageText) && error == "Error sending message"
              case Ok(c) =>
                && messageText == [] && error == old(error)
                && writes == old(writes) + [Append(messagesRef.value, Ciphertext(c))]
                   + (if hasGun then [Put(MessagesSentPath, Count(NextCount(count)))] else []))
    {
      if Blank(messageText) || messagesRef.None? || roomKeys.None? || roomKeys.value.FalsyKeys? || username == [] {
        return;
      }
      var m := Message(Trim(messageText), username, now, GenerateMessageId(now, fraction));
      match encrypt(stringify(m), roomKeys.value)
      case Err(_) =>
        error := "Error sending message";
      case Ok(c) =>
        writes := writes + [Append(messagesRef.value, Ciphertext(c))];
        messageText := [];
        if hasGun {
          writes := writes + [Put(MessagesSentPath, Count(NextCount(count)))];
        }
    }

    /** The stats listeners: each shows its counter's value, or 0 when falsy. */
    method OnStatsUpdate(chatsCounter: bool, data: CounterValue)
      modifies this
      ensures chatsCounter ==> totalChatsCreated == CounterShown(data) && totalMessagesSent == old(totalMessagesSent)
      ensures !chatsCounter ==> totalMessagesSent == CounterShown(data) && totalChatsCreated == old(totalChatsCreated)
      ensures hasGun == old(hasGun) && Session() == old(Session()) && Chat() == old(Chat())
      ensures writes == old(writes) && error == old(error)
    {
      if chatsCounter {
        totalChatsCreated := CounterShown(data);
      } else {
        totalMessagesSent := CounterShown(data);
      }
    }
  }
}
