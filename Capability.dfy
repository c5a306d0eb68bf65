/** The capability link: `origin + pathname + "#" + roomId + "@" +
    encodeURIComponent(JSON.stringify(keys))`, and the two parsers of its
    fragment (the protocol's `parseRoomFromUrl` and the chat page's inline
    copy in `parseUrlAndSetupRoom`), plus the room and message id generators.

    `JSON.stringify` and `JSON.parse` are parameters: `stringify` renders a key
    bundle, `parseKeys` yields `None` where `JSON.parse` throws. */
module Capability {
  import opened Base
  import opened Uri
  import opened Types

  // ---------------------------------------------------------------------------
  // fragment splitting

  /** `roomId` is the text before the first `@` of `hash` and `blob` all of
      the text after it. */
  predicate SplitsAtFirstAt(hash: string, roomId: string, blob: string) {
    '@' !in roomId && hash == roomId + "@" + blob
  }

  /** The guard and split shared by both parsers: `None` for an empty hash or
      one without `@`; otherwise `parts[0]` and, when there are more than two
      parts, `parts.slice(1).join("@")`, else `parts[1]`. */
  function SplitFragment(hash: string): Option<(string, string)> {
    if hash == [] || '@' !in hash then None
    else
      var parts := Split(hash, '@');
      if |parts| > 2 then Some((parts[0], Join(parts[1..], '@')))
      else if |parts| == 1 then None
      else Some((parts[0], parts[1]))
  }

  /** No `@` (the empty hash included) is the only way the split fails. */
  lemma SplitFragmentNone(hash: string)
    ensures SplitFragment(hash).None? <==> '@' !in hash
  {
    if '@' in hash {
      SplitAtFirst(hash, '@');
    }
  }

  /** A successful split cuts at the first `@` and keeps every later `@` in the blob. */
  lemma SplitFragmentSome(hash: string)
    requires SplitFragment(hash).Some?
    ensures SplitsAtFirstAt(hash, SplitFragment(hash).value.0, SplitFragment(hash).value.1)
  {
    SplitAtFirst(hash, '@');
    var parts := Split(hash, '@');
    var i := IndexOf(hash, '@');
    assert hash == hash[..i] + "@" + hash[i + 1..];
    if |parts| == 2 {
      assert Join(parts[1..], '@') == parts[1];
    }
  }

  /** Conversely, every such cut is the one the split finds. */
  lemma SplitFragmentOf(roomId: string, blob: string)
    requires '@' !in roomId
    ensures SplitFragment(roomId + "@" + blob) == Some((roomId, blob))
  {
    var hash := roomId + "@" + blob;
    assert hash == roomId + ['@'] + blob;
    assert hash[|roomId|] == '@';
    SplitAfterFirst(roomId, '@', blob);
    JoinSplit(blob, '@');
    var parts := Split(hash, '@');
    assert parts[1..] == Split(blob, '@');
    if |parts| == 2 {
      assert Join(parts[1..], '@') == parts[1];
    }
  }

  // ---------------------------------------------------------------------------
  // parsing

  /** `JSON.parse(decodeURIComponent(blob))`, `None` where either throws. */
  function DecodeKeys(blob: string, parseKeys: string -> Option<RoomKeys>): Option<RoomKeys> {
    match DecodeURIComponent(blob)
    case None => None
    case Some(json) => parseKeys(json)
  }

  /** `Eph.parseRoomFromUrl(hash)`: `null` (here `None`) for a hash without
      `@` and for a key blob that does not decode or parse. */
  function ParseRoomFromUrl(hash: string, parseKeys: string -> Option<RoomKeys>): Option<(string, RoomKeys)> {
    match SplitFragment(hash)
    case None => None
    case Some((roomId, blob)) =>
      match DecodeKeys(blob, parseKeys)
      case None => None
      case Some(keys) => Some((roomId, keys))
  }

  /** The parser accepts exactly the hashes `roomId@blob` whose room id holds no
      `@` and whose blob decodes and parses, and returns that room id and those keys. */
  lemma ParseRoomFromUrlSpec(hash: string, parseKeys: string -> Option<RoomKeys>, roomId: string, keys: RoomKeys)
    ensures ParseRoomFromUrl(hash, parseKeys) == Some((roomId, keys)) <==>
      exists blob :: SplitsAtFirstAt(hash, roomId, blob) && DecodeKeys(blob, parseKeys) == Some(keys)
  {
    if ParseRoomFromUrl(hash, parseKeys) == Some((roomId, keys)) {
      SplitFragmentSome(hash);
      var blob := SplitFragment(hash).value.1;
      assert SplitsAtFirstAt(hash, roomId, blob);
    }
    if exists blob :: SplitsAtFirstAt(hash, roomId, blob) && DecodeKeys(blob, parseKeys) == Some(keys) {
      var blob :| SplitsAtFirstAt(hash, roomId, blob) && DecodeKeys(blob, parseKeys) == Some(keys);
      SplitFragmentOf(roomId, blob);
    }
  }

  /** What the chat page makes of the hash: no room link (no `@`), a link
      whose keys fail to decode or parse, or a room to join. */
  datatype RoomLink = NoRoomLink | InvalidKeys | Link(roomId: string, keys: RoomKeys)

  /** The classification inside `parseUrlAndSetupRoom`. */
  function ReadRoomLink(hash: string, parseKeys: string -> Option<RoomKeys>): RoomLink {
    match SplitFragment(hash)
    case None => NoRoomLink
    case Some((roomId, blob)) =>
      match DecodeKeys(blob, parseKeys)
      case None => InvalidKeys
      case Some(keys) => Link(roomId, keys)
  }

  /** The page's copy agrees with the protocol's parser on every hash, and
      tells apart the two cases the protocol reports alike as `null`. */
  lemma ReadRoomLinkAgrees(hash: string, parseKeys: string -> Option<RoomKeys>)
    ensures var p := ParseRoomFromUrl(hash, parseKeys); var l := ReadRoomLink(hash, parseKeys);
      && (p.Some? <==> l.Link?)
      && (p.Some? ==> p.value == (l.roomId, l.keys))
      && (l.NoRoomLink? <==> '@' !in hash)
      && (l.InvalidKeys? ==> '@' in hash && p.None?)
  {
    SplitFragmentNone(hash);
  }

  // ---------------------------------------------------------------------------
  // generation

  /** `location.hash.substring(1)`: the text after the first `#`, or `""`. */
  function HashOf(url: string): string {
    if '#' in url then url[IndexOf(url, '#') + 1..] else ""
  }

  /** The fragment of a capability link. */
  function RoomFragment(roomId: string, keys: RoomKeys, stringify: RoomKeys -> string): string {
    roomId + "@" + EncodeURIComponent(stringify(keys))
  }

  /** `generateRoomUrl` and the page's `updateShareUrl` / new-room URL. */
  function GenerateRoomUrl(origin: string, pathname: string, roomId: string, keys: RoomKeys,
                           stringify: RoomKeys -> string): string
  {
    origin + pathname + "#" + RoomFragment(roomId, keys, stringify)
  }

  lemma HashOfUrl(base: string, fragment: string)
    requires '#' !in base
    ensures HashOf(base + "#" + fragment) == fragment
  {
    assert base + "#" + fragment == base + ['#'] + fragment;
    IndexOfFirst(base, '#', fragment);
  }

  /** The link round-trips: the page's hash of a generated link parses back to
      the same room id and keys, provided the room id has no `@`, the page's
      address has no `#`, and `JSON.parse` reads back what `JSON.stringify`
      wrote. */
  lemma GeneratedUrlParses(origin: string, pathname: string, roomId: string, keys: RoomKeys,
                           stringify: RoomKeys -> string, parseKeys: string -> Option<RoomKeys>)
    requires '#' !in origin + pathname
    requires '@' !in roomId
    requires parseKeys(stringify(keys)) == Some(keys)
    ensures ParseRoomFromUrl(HashOf(GenerateRoomUrl(origin, pathname, roomId, keys, stringify)), parseKeys)
      == Some((roomId, keys))
    ensures ReadRoomLink(HashOf(GenerateRoomUrl(origin, pathname, roomId, keys, stringify)), parseKeys)
      == Link(roomId, keys)
  {
    var blob := EncodeURIComponent(stringify(keys));
    HashOfUrl(origin + pathname, RoomFragment(roomId, keys, stringify));
    SplitFragmentOf(roomId, blob);
    DecodeEncode(stringify(keys));
  }

  /** A digit of `Math.random().toString(36)`. */
  type Base36Digit = d: nat | d < 36

  function Base36(ds: seq<Base36Digit>): (s: string)
    ensures |s| == |ds| && '@' !in s && '#' !in s
  {
    if ds == [] then [] else [DigitChar(ds[0])] + Base36(ds[1..])
  }

  /** `Date.now().toString(36) + Math.random().toString(36).substr(2)`; the
      random fraction's digits are a parameter. */
  function GenerateMessageId(now: nat, fraction: seq<Base36Digit>): (id: string)
    ensures |id| >= 1 && '@' !in id && '#' !in id
  {
    NatToString(now, 36) + Base36(fraction)
  }

  /** `"room_" + ...` as `generateRoomId` builds it: a room id always starts
      with `room_` and never holds `@`, so it survives the link format. */
  function GenerateRoomId(now: nat, fraction: seq<Base36Digit>): (id: string)
    ensures |id| > 5 && id[..5] == "room_"
    ensures '@' !in id && '#' !in id
  {
    "room_" + GenerateMessageId(now, fraction)
  }

  /** The link of every freshly created room round-trips. */
  lemma NewRoomUrlParses(origin: string, pathname: string, now: nat, fraction: seq<Base36Digit>,
                         keys: RoomKeys, stringify: RoomKeys -> string, parseKeys: string -> Option<RoomKeys>)
    requires '#' !in origin + pathname
    requires parseKeys(stringify(keys)) == Some(keys)
    ensures var id := GenerateRoomId(now, fraction);
      ReadRoomLink(HashOf(GenerateRoomUrl(origin, pathname, id, keys, stringify)), parseKeys) == Link(id, keys)
  {
    GeneratedUrlParses(origin, pathname, GenerateRoomId(now, fraction), keys, stringify, parseKeys);
  }
}
