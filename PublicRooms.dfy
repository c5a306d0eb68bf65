/** The public room directory page (app/public-rooms/page.tsx): its one-shot
    subscription effect, the search filter, the relative date column and the
    count line. `toLowerCase` is the parameter `lower`; the locale date
    rendering is the parameter `localeDate`. */
module PublicRooms {
  import opened Base
  import opened Types
  import GunProtocol
  import EphHook

  // ---------------------------------------------------------------------------
  // search

  /** The filter's test: the lower-cased term occurs in the lower-cased name,
      or in a non-empty description. */
  predicate Matches(room: PublishedRoom, term: string, lower: string -> string) {
    || Includes(lower(room.name), lower(term))
    || (room.description.Some? && room.description.value != []
        && Includes(lower(room.description.value), lower(term)))
  }

  /** `publishedRooms.filter(...)`. */
  function FilteredRooms(rooms: seq<PublishedRoom>, term: string, lower: string -> string): (r: seq<PublishedRoom>)
    ensures |r| <= |rooms|
  {
    if rooms == [] then []
    else (if Matches(rooms[0], term, lower) then [rooms[0]] else []) + FilteredRooms(rooms[1..], term, lower)
  }

  /** A room is listed exactly when it is published and matches. */
  lemma {:induction false} FilteredRoomsSpec(rooms: seq<PublishedRoom>, term: string, lower: string -> string,
                                            room: PublishedRoom)
    ensures room in FilteredRooms(rooms, term, lower) <==> room in rooms && Matches(room, term, lower)
  {
    if rooms != [] {
      FilteredRoomsSpec(rooms[1..], term, lower, room);
      assert rooms == [rooms[0]] + rooms[1..];
    }
  }

  /** `s` keeps some of the entries of `t`, in their order. */
  predicate Subsequence<T(==)>(s: seq<T>, t: seq<T>)
    decreases |t|
  {
    if s == [] then true
    else if t == [] then false
    else if s[0] == t[0] then Subsequence(s[1..], t[1..])
    else Subsequence(s, t[1..])
  }

  /** The listing keeps the directory's newest-first order. */
  lemma {:induction false} FilteredRoomsKeepOrder(rooms: seq<PublishedRoom>, term: string, lower: string -> string)
    ensures Subsequence(FilteredRooms(rooms, term, lower), rooms)
  {
    if rooms != [] {
      FilteredRoomsKeepOrder(rooms[1..], term, lower);
      var rest := FilteredRooms(rooms[1..], term, lower);
      if Matches(rooms[0], term, lower) {
        assert FilteredRooms(rooms, term, lower) == [rooms[0]] + rest;
      } else {
        assert FilteredRooms(rooms, term, lower) == rest;
        if rest != [] && rest[0] == rooms[0] {
          assert rooms[0] in rest;
          FilteredRoomsSpec(rooms[1..], term, lower, rooms[0]);
          assert false;
        }
      }
    }
  }

  lemma OccursAtStart(s: string)
    ensures OccursAt(s, [], 0)
  {
  }

  /** An empty search (one whose lower-casing is empty) lists every room. */
  lemma {:induction false} EmptySearchListsAll(rooms: seq<PublishedRoom>, term: string, lower: string -> string)
    requires lower(term) == []
    ensures FilteredRooms(rooms, term, lower) == rooms
  {
    if rooms != [] {
      OccursAtStart(lower(rooms[0].name));
      EmptySearchListsAll(rooms[1..], term, lower);
    }
  }

  // ---------------------------------------------------------------------------
  // dates and counts

  const HourMs := 1000 * 60 * 60

  /** `formatDate(timestamp)` at time `now`, both in milliseconds. */
  function FormatDate(now: int, timestamp: int, localeDate: int -> string): string {
    var diff := now - timestamp;
    if diff < HourMs then "Just now"
    else if diff < 24 * HourMs then NatToString(diff / HourMs, 10) + "h ago"
    else localeDate(timestamp)
  }

  /** Less than an hour ago (the future included) is "Just now"; under a day
      is the whole number of hours `h`, between 1 and 23, with `diff` in
      `[h, h + 1)` hours; a day or more is the locale date. */
  lemma FormatDateSpec(now: int, timestamp: int, localeDate: int -> string)
    ensures var diff := now - timestamp; var r := FormatDate(now, timestamp, localeDate);
      && (diff < HourMs ==> r == "Just now")
      && (HourMs <= diff < 24 * HourMs ==>
            exists h: nat ::
              && 1 <= h <= 23 && h * HourMs <= diff < (h + 1) * HourMs
              && r == NatToString(h, 10) + "h ago")
      && (24 * HourMs <= diff ==> r == localeDate(timestamp))
  {
    var diff := now - timestamp;
    if HourMs <= diff < 24 * HourMs {
      var h: nat := diff / HourMs;
      assert diff == h * HourMs + diff % HourMs;
      assert h * HourMs <= diff < (h + 1) * HourMs;
      assert 1 <= h <= 23;
      assert FormatDate(now, timestamp, localeDate) == NatToString(h, 10) + "h ago";
    }
  }

  /** The count line under the table. */
  function CountLabel(n: nat, term: string): string {
    NatToString(n, 10) + " room" + (if n != 1 then "s" else "") + " found"
    + (if term != [] then " matching \"" + term + "\"" else "")
  }

  /** The label starts with the count and the noun, singular exactly for one
      room; it ends there when there is no search term, and otherwise goes
      on with the term, quoted. */
  lemma CountLabelSpec(n: nat, term: string)
    ensures var digits := NatToString(n, 10);
      var head := |digits| + 11 + (if n != 1 then 1 else 0);
      && head <= |CountLabel(n, term)|
      && (n == 1 ==> CountLabel(n, term)[..head] == digits + " room found")
      && (n != 1 ==> CountLabel(n, term)[..head] == digits + " rooms found")
      && (term == [] ==> |CountLabel(n, term)| == head)
      && (term != [] ==> CountLabel(n, term)[head..] == " matching \"" + term + "\"")
  {
  }

  // ---------------------------------------------------------------------------
  // the page

  class PublicRoomsPage {
    const hook: EphHook.UseEph
    var searchTerm: string
    var isLoading: bool
    /** `hasSetupRef.current`. */
    var hasSetup: bool
    /** The subscription whose cleanup the effect returned, if any. */
    var listener: GunProtocol.DirectoryListener?

    constructor (hook: EphHook.UseEph)
      ensures this.hook == hook && searchTerm == [] && isLoading && !hasSetup && listener == null
    {
      this.hook := hook;
      searchTerm := [];
      isLoading := true;
      hasSetup := false;
      listener := null;
    }

    /** The subscription effect, run when the hook's connection or loading
        state changes: React first runs the previous run's cleanup, then the
        effect subscribes once, the first time the hook is connected and done
        loading. A re-run after that leaves the page unsubscribed. */
    method Effect()
      requires hook.Valid()
      modifies this
      ensures var fires := hook.isConnected && !hook.isLoading && !old(hasSetup);
        && (fires ==>
              && hasSetup && !isLoading
              && (listener != null <==> hook.Ready() && hook.protocol.gun.Some?)
              && (listener != null ==> fresh(listener) && listener.Valid() && listener.rooms == []))
        && (!fires ==> listener == null && hasSetup == old(hasSetup) && isLoading == old(isLoading))
      ensures old(hasSetup) ==> listener == null
      ensures searchTerm == old(searchTerm)
    {
      listener := null;
      if hook.isConnected && !hook.isLoading && !hasSetup {
        listener := hook.ListenToPublishedRooms();
        isLoading := false;
        hasSetup := true;
      }
    }

    /** The rows the table shows. */
    function Visible(lower: string -> string): (rows: seq<PublishedRoom>)
      reads this, hook
      ensures forall room :: room in rows <==> room in hook.publishedRooms && Matches(room, searchTerm, lower)
    {
      forall room ensures room in FilteredRooms(hook.publishedRooms, searchTerm, lower)
        <==> room in hook.publishedRooms && Matches(room, searchTerm, lower) {
        FilteredRoomsSpec(hook.publishedRooms, searchTerm, lower, room);
      }
      FilteredRooms(hook.publishedRooms, searchTerm, lower)
    }
  }
}
