/** The chat subscription handler (`listenToMessages` in lib/gun-protocol.ts
    and the handler `setupChat` installs in app/page.tsx; the two are the
    same code), and the message-list update both UIs apply to what it
    delivers.

    One store event is a store key with its raw value, the outcome of
    `SEA.decrypt` on that value, and the clock reading `Date.now()` would
    give. `JSON.parse` is the parameter `parse`, `None` where it throws; a
    parsed value is read as a `Message` whose missing or falsy fields are
    `""`. */
module MessageIntake {
  import opened Base
  import opened Types
  import opened Sorting

  /** A store event under the room's chat node. `data` is `None` unless the
      value is a string. */
  datatype Event = Event(key: string, data: Option<string>, decrypted: Decryption, now: int)

  /** The handler's effect: the new set of processed keys, the message handed
      to `onMessage` if any, and whether `onError` fired. */
  datatype Intake = Intake(processed: set<string>, delivered: Option<Message>, failed: bool)

  /** JavaScript truthiness of what `SEA.decrypt` resolved to. */
  predicate Truthy(p: Plaintext) {
    match p
    case Falsy => false
    case Text(s) => s != []
    case Decoded(_) => true
  }

  /** The message built from a truthy plaintext: a string is parsed as JSON
      and, if that throws, wrapped as an anonymous message whose id is the
      store key and whose timestamp is the current time. */
  function ToMessage(p: Plaintext, key: string, now: int, parse: string -> Option<Message>): Message {
    match p
    case Decoded(m) => m
    case Text(s) =>
      (match parse(s)
       case Some(m) => m
       case None => Message(s, "Anonymous", now, key))
    case Falsy => Message([], [], now, key)
  }

  /** `messageObj && messageObj.text && messageObj.username`. */
  predicate Deliverable(m: Message) {
    m.text != [] && m.username != []
  }

  /** One invocation of the handler, taken as atomic. */
  function Receive(processed: set<string>, e: Event, parse: string -> Option<Message>): Intake {
    if e.key in processed then Intake(processed, None, false)
    else if e.data.None? || e.data.value == [] then Intake(processed, None, false)
    else match e.decrypted
      case Threw => Intake(processed, None, true)
      case Returned(p) =>
        if !Truthy(p) then Intake(processed, None, false)
        else
          var m := ToMessage(p, e.key, e.now, parse);
          Intake(processed + {e.key}, if Deliverable(m) then Some(m) else None, false)
  }

  /** A key is consumed exactly when it was new, its value a non-empty string
      and decryption truthy; nothing else ever changes the set. A decryption
      that threw or came back falsy leaves the key retriable, and a key is
      consumed even when its payload then fails validation. */
  lemma ReceiveProcessed(processed: set<string>, e: Event, parse: string -> Option<Message>)
    ensures var r := Receive(processed, e, parse);
      var consumed := e.key !in processed && e.data.Some? && e.data.value != []
        && e.decrypted.Returned? && Truthy(e.decrypted.plain);
      && (consumed ==> r.processed == processed + {e.key})
      && (!consumed ==> r.processed == processed)
      && (r.failed <==> e.key !in processed && e.data.Some? && e.data.value != [] && e.decrypted.Threw?)
  {
  }

  /** A message is delivered only for a key not yet processed, which it marks
      processed, and only with non-empty `text` and `username`. */
  lemma ReceiveDelivers(processed: set<string>, e: Event, parse: string -> Option<Message>)
    ensures var r := Receive(processed, e, parse);
      r.delivered.Some? ==>
        && e.key !in processed && e.key in r.processed
        && Deliverable(r.delivered.value)
        && r.delivered.value == ToMessage(e.decrypted.plain, e.key, e.now, parse)
  {
  }

  /** A plaintext that is not JSON arrives as an "Anonymous" message with the
      store key as its id and the event's time as its timestamp. */
  lemma ReceiveAnonymous(processed: set<string>, e: Event, parse: string -> Option<Message>, s: string)
    requires e.key !in processed && e.data.Some? && e.data.value != []
    requires e.decrypted == Returned(Text(s)) && s != [] && parse(s).None?
    ensures Receive(processed, e, parse).delivered == Some(Message(s, "Anonymous", e.now, e.key))
  {
  }

  /** The keys whose messages a run of events delivers, in order. */
  function Deliveries(processed: set<string>, events: seq<Event>, parse: string -> Option<Message>): seq<string>
    decreases |events|
  {
    if events == [] then []
    else
      var r := Receive(processed, events[0], parse);
      (if r.delivered.Some? then [events[0].key] else []) + Deliveries(r.processed, events[1..], parse)
  }

  /** The processed set after a run of events. */
  function ProcessedAfter(processed: set<string>, events: seq<Event>, parse: string -> Option<Message>): set<string>
    decreases |events|
  {
    if events == [] then processed
    else ProcessedAfter(Receive(processed, events[0], parse).processed, events[1..], parse)
  }

  /** However the store replays events, every key reaches `onMessage` at most
      once, never one processed before the run, and each delivered key is
      processed afterwards. */
  lemma {:induction false} DeliveredAtMostOnce(processed: set<string>, events: seq<Event>, parse: string -> Option<Message>)
    ensures Distinct(Deliveries(processed, events, parse))
    ensures forall k | k in Deliveries(processed, events, parse) ::
      k !in processed && k in ProcessedAfter(processed, events, parse)
    ensures processed <= ProcessedAfter(processed, events, parse)
    decreases |events|
  {
    if events != [] {
      var e := events[0];
      var r := Receive(processed, e, parse);
      ReceiveProcessed(processed, e, parse);
      ReceiveDelivers(processed, e, parse);
      DeliveredAtMostOnce(r.processed, events[1..], parse);
      var rest := Deliveries(r.processed, events[1..], parse);
      var d := Deliveries(processed, events, parse);
      if r.delivered.Some? {
        assert d == [e.key] + rest;
        assert e.key !in rest;
        forall i, j | 0 <= i < j < |d| ensures d[i] != d[j] {
          assert d[j] == rest[j - 1];
          if i > 0 { assert d[i] == rest[i - 1]; }
        }
      } else {
        assert d == rest;
      }
    }
  }

  ghost predicate Distinct<T>(s: seq<T>) {
    forall i, j :: 0 <= i < j < |s| ==> s[i] != s[j]
  }

  // ---------------------------------------------------------------------------
  // the message list

  /** `(a, b) => a.timestamp - b.timestamp`: `a` may precede `b`. */
  predicate ByTimestamp(a: Message, b: Message) {
    a.timestamp <= b.timestamp
  }

  lemma ByTimestampIsTotalPreorder()
    ensures TotalPreorder(ByTimestamp)
  {
  }

  /** `prev.some(msg => msg.id === id)`. */
  predicate HasId(prev: seq<Message>, id: string) {
    exists i :: 0 <= i < |prev| && prev[i].id == id
  }

  ghost predicate UniqueIds(ms: seq<Message>) {
    forall i, j :: 0 <= i < j < |ms| ==> ms[i].id != ms[j].id
  }

  /** The `setMessages` updater: an id already listed leaves the list as it is;
      otherwise the message is appended and the list re-sorted by timestamp. */
  function AddMessage(prev: seq<Message>, m: Message): seq<Message> {
    if HasId(prev, m.id) then prev else SortBy(prev + [m], ByTimestamp)
  }

  /** A new id grows the list by exactly that message, placed after every
      message with an earlier or equal timestamp, the rest in their old order. */
  lemma AddMessageNew(prev: seq<Message>, m: Message)
    requires !HasId(prev, m.id)
    ensures multiset(AddMessage(prev, m)) == multiset(prev) + multiset{m}
    ensures |AddMessage(prev, m)| == |prev| + 1
    ensures Sorted(prev, ByTimestamp) ==> AddMessage(prev, m) == Insert(prev, m, ByTimestamp)
  {
    SortByPermutes(prev + [m], ByTimestamp);
    if Sorted(prev, ByTimestamp) {
      SortAppendSorted(prev, m, ByTimestamp);
    }
  }

  /** The result always lists the message's id, so a second delivery of the
      same id changes nothing: the update is idempotent. */
  lemma AddMessageIdempotent(prev: seq<Message>, m: Message)
    ensures HasId(AddMessage(prev, m), m.id)
    ensures AddMessage(AddMessage(prev, m), m) == AddMessage(prev, m)
  {
    if !HasId(prev, m.id) {
      var r := AddMessage(prev, m);
      AddMessageNew(prev, m);
      assert m in multiset(r);
      var i :| 0 <= i < |r| && r[i] == m;
    }
  }

  /** The list stays sorted by timestamp, and its ids stay unique. */
  lemma AddMessageKeepsInvariant(prev: seq<Message>, m: Message)
    ensures Sorted(prev, ByTimestamp) ==> Sorted(AddMessage(prev, m), ByTimestamp)
    ensures UniqueIds(prev) ==> UniqueIds(AddMessage(prev, m))
  {
    if !HasId(prev, m.id) {
      var s := prev + [m];
      var r := AddMessage(prev, m);
      ByTimestampIsTotalPreorder();
      SortBySorted(s, ByTimestamp);
      if UniqueIds(prev) {
        assert UniqueIds(s) by {
          forall i, j | 0 <= i < j < |s| ensures s[i].id != s[j].id {
            if j == |prev| { assert s[i] == prev[i]; }
          }
        }
        SortByPermutes(s, ByTimestamp);
        PermutationKeepsUniqueIds(s, r);
      }
    }
  }

  lemma PermutationKeepsUniqueIds(s: seq<Message>, r: seq<Message>)
    requires UniqueIds(s) && multiset(r) == multiset(s)
    ensures UniqueIds(r)
  {
    forall i, j | 0 <= i < j < |r| ensures r[i].id != r[j].id {
      assert r[i] in multiset(s) && r[j] in multiset(s);
      var a :| 0 <= a < |s| && s[a] == r[i];
      var b :| 0 <= b < |s| && s[b] == r[j];
      if r[i] == r[j] {
        TwiceCounted(r, i, j);
        UniqueCount(s, a);
      } else {
        assert a != b;
      }
    }
  }

  /** An element at two positions occurs at least twice. */
  lemma TwiceCounted<T>(r: seq<T>, i: nat, j: nat)
    requires i < j < |r| && r[i] == r[j]
    ensures multiset(r)[r[i]] >= 2
  {
    assert r == r[..j] + [r[j]] + r[j + 1..];
    assert r[..j][i] == r[i];
    assert multiset(r) == multiset(r[..j]) + multiset{r[j]} + multiset(r[j + 1..]);
  }

  /** In a list with unique ids, every message occurs once. */
  lemma UniqueCount(s: seq<Message>, a: nat)
    requires UniqueIds(s) && a < |s|
    ensures multiset(s)[s[a]] == 1
  {
    assert s == s[..a] + [s[a]] + s[a + 1..];
    forall k | 0 <= k < a ensures s[..a][k] != s[a] {
      assert s[k].id != s[a].id;
    }
    forall k | a < k < |s| ensures s[k] != s[a] {
      assert s[k].id != s[a].id;
    }
    assert s[a] !in s[a + 1..];
    assert multiset(s) == multiset(s[..a]) + multiset{s[a]} + multiset(s[a + 1..]);
  }
}
