/** Keeping the application's notification settings in step with the server's (src/notifications.rs). */
module Notifications {
  import opened Collections
  import opened Utils

  datatype Setting = AllMessages | Mute | MentionsAndKeywordsOnly

  /** A room without an entry uses the global setting. */
  datatype Settings = Settings(global: Setting, rooms: map<string, Setting>)

  type Entry = (string, Setting)

  datatype SettingsEvent = GlobalChanged(global: Setting) | RoomChanged(room: string, setting: Option<Setting>)

  function SameRoom(): Relation<Entry> { (a: Entry, b: Entry) => a.0 == b.0 }

  function SameSetting(): Relation<Entry> { (a: Entry, b: Entry) => a.1 == b.1 }

  function Lookup(rooms: map<string, Setting>, room: string): Option<Setting> {
    if room in rooms then Some(rooms[room]) else None
  }

  /** `entries` lists the map, each key once, in the iteration order of the hash map. */
  ghost predicate Entries(entries: seq<Entry>, rooms: map<string, Setting>) {
    && (forall i, j :: 0 <= i < j < |entries| ==> entries[i].0 != entries[j].0)
    && (forall i :: 0 <= i < |entries| ==> Lookup(rooms, entries[i].0) == Some(entries[i].1))
    && (forall k :: k in rooms ==> (k, rooms[k]) in entries)
  }

  method EntriesOf(rooms: map<string, Setting>) returns (entries: seq<Entry>)
    ensures Entries(entries, rooms)
  {
    var keys, values := IterateMap(rooms);
    entries := seq(|keys|, i requires 0 <= i < |keys| => (keys[i], values[i]));
    forall k | k in rooms
      ensures (k, rooms[k]) in entries
    {
      assert k in keys;
      var i :| 0 <= i < |keys| && keys[i] == k;
      assert entries[i] == (k, rooms[k]);
    }
  }

  // ---- What the three parts of a comparison are ----

  lemma {:induction false} AddedIff(olds: seq<Entry>, news: seq<Entry>, x: Entry)
    ensures x in Added(olds, news, SameRoom()) <==> x in news && forall o :: o in olds ==> o.0 != x.0
  {
    if news == [] {
    } else {
      AddedIff(olds, Front(news), x);
      assert news == Front(news) + [Last(news)];
      var m := FirstMatch(olds, Last(news), SameRoom());
      assert m.Some? ==> olds[m.value] in olds;
    }
  }

  lemma {:induction false} UpdatedIff(olds: seq<Entry>, news: seq<Entry>, o: Entry, n: Entry)
    requires forall i, j :: 0 <= i < j < |olds| ==> olds[i].0 != olds[j].0
    ensures (o, n) in Updated(olds, news, SameRoom(), SameSetting()) <==>
            n in news && o in olds && o.0 == n.0 && o.1 != n.1
  {
    if news == [] {
    } else {
      UpdatedIff(olds, Front(news), o, n);
      assert news == Front(news) + [Last(news)];
      var m := FirstMatch(olds, Last(news), SameRoom());
      if n == Last(news) && o in olds && o.0 == n.0 {
        var i :| 0 <= i < |olds| && olds[i] == o;
        assert SameRoom()(olds[i], n);
      }
    }
  }

  lemma {:induction false} UnmatchedIff(olds: seq<Entry>, matched: set<nat>, o: Entry)
    ensures o in Unmatched(olds, matched) <==> exists i :: 0 <= i < |olds| && olds[i] == o && i !in matched
  {
    if olds == [] {
    } else {
      UnmatchedIff(Front(olds), matched, o);
      assert forall i :: 0 <= i < |olds| - 1 ==> Front(olds)[i] == olds[i];
    }
  }

  lemma DeletedIff(olds: seq<Entry>, news: seq<Entry>, o: Entry)
    requires forall i, j :: 0 <= i < j < |olds| ==> olds[i].0 != olds[j].0
    ensures o in Unmatched(olds, Matched(olds, news, SameRoom())) <==> o in olds && forall n :: n in news ==> n.0 != o.0
  {
    var matched := Matched(olds, news, SameRoom());
    UnmatchedIff(olds, matched, o);
    forall i | 0 <= i < |olds|
      ensures i in matched <==> exists n :: n in news && n.0 == olds[i].0
    {
      if n :| n in news && n.0 == olds[i].0 {
        var k :| 0 <= k < |news| && news[k] == n;
        assert SameRoom()(olds[i], n);
        assert FirstMatch(olds, news[k], SameRoom()) == Some(i);
      }
    }
  }

  // ---- Events rebuild the new settings ----

  function RoomEvents(entries: seq<Entry>, keep: bool): seq<SettingsEvent> {
    Map((e: Entry) => RoomChanged(e.0, if keep then Some(e.1) else None), entries)
  }

  function Seconds(pairs: seq<(Entry, Entry)>): seq<Entry> {
    Map((p: (Entry, Entry)) => p.1, pairs)
  }

  /** The room events of a comparison, in the order they are sent. */
  function EventsOf(c: Comparison<Entry>): seq<SettingsEvent> {
    RoomEvents(c.added, true) + RoomEvents(c.deleted, false) + RoomEvents(Seconds(c.updated), true)
  }

  /** First what was added, then what was deleted, then what was updated. */
  predicate InOrder(c: Comparison<Entry>, events: seq<SettingsEvent>) {
    var a, d := |c.added|, |c.deleted|;
    && |events| == a + d + |c.updated|
    && (forall i :: 0 <= i < a ==> events[i] == RoomChanged(c.added[i].0, Some(c.added[i].1)))
    && (forall i :: 0 <= i < d ==> events[a + i] == RoomChanged(c.deleted[i].0, None))
    && (forall i :: 0 <= i < |c.updated| ==>
          events[a + d + i] == RoomChanged(c.updated[i].1.0, Some(c.updated[i].1.1)))
  }

  lemma EventsInOrder(c: Comparison<Entry>)
    ensures InOrder(c, EventsOf(c))
  {
  }

  /** How the application follows an event. */
  function Follow(s: Settings, e: SettingsEvent): Settings {
    match e
    case GlobalChanged(g) => s.(global := g)
    case RoomChanged(room, Some(setting)) => s.(rooms := s.rooms[room := setting])
    case RoomChanged(room, None) => s.(rooms := s.rooms - {room})
  }

  function FollowAll(s: Settings, events: seq<SettingsEvent>): Settings {
    if events == [] then s else Follow(FollowAll(s, Front(events)), Last(events))
  }

  /** Each event tells the new setting of a room whose setting changed, and every changed room has an event. */
  ghost predicate Tells(events: seq<SettingsEvent>, before: map<string, Setting>, after: map<string, Setting>) {
    && (forall e :: e in events ==> e.RoomChanged? && e.setting == Lookup(after, e.room)
                                    && Lookup(before, e.room) != Lookup(after, e.room))
    && (forall room :: Lookup(before, room) != Lookup(after, room) ==> RoomChanged(room, Lookup(after, room)) in events)
  }

  lemma {:induction false} FollowLookup(
    s: Settings, events: seq<SettingsEvent>, after: map<string, Setting>, room: string)
    requires forall e :: e in events ==> e.RoomChanged? && e.setting == Lookup(after, e.room)
    ensures FollowAll(s, events).global == s.global
    ensures Lookup(FollowAll(s, events).rooms, room) ==
            if RoomChanged(room, Lookup(after, room)) in events then Lookup(after, room) else Lookup(s.rooms, room)
  {
    if events == [] {
    } else {
      assert events == Front(events) + [Last(events)];
      FollowLookup(s, Front(events), after, room);
      assert Last(events) in events;
    }
  }

  /** Following such events from the old settings gives the new ones, whatever their order. */
  lemma TellingRebuilds(s: Settings, events: seq<SettingsEvent>, after: map<string, Setting>)
    requires Tells(events, s.rooms, after)
    ensures FollowAll(s, events) == s.(rooms := after)
  {
    var r := FollowAll(s, events);
    forall room
      ensures Lookup(r.rooms, room) == Lookup(after, room)
    {
      FollowLookup(s, events, after, room);
    }
    FollowLookup(s, events, after, "");
    assert forall k :: (k in r.rooms <==> Lookup(r.rooms, k).Some?) && (k in after <==> Lookup(after, k).Some?);
    assert r.rooms == after;
  }

  function Compared(olds: seq<Entry>, news: seq<Entry>): Comparison<Entry> {
    Comparison(Added(olds, news, SameRoom()), Updated(olds, news, SameRoom(), SameSetting()),
               Unmatched(olds, Matched(olds, news, SameRoom())))
  }

  lemma EntryIff(entries: seq<Entry>, rooms: map<string, Setting>, room: string)
    requires Entries(entries, rooms)
    ensures forall x :: x in entries && x.0 == room ==> Lookup(rooms, room) == Some(x.1)
    ensures room in rooms <==> exists x :: x in entries && x.0 == room
  {
    if room in rooms {
      assert (room, rooms[room]) in entries;
    }
  }

  /** The three parts in terms of the maps: they speak about disjoint sets of rooms. */
  ghost predicate PartsAre(c: Comparison<Entry>, before: map<string, Setting>, after: map<string, Setting>) {
    && (forall x :: x in c.added <==> x.0 !in before && Lookup(after, x.0) == Some(x.1))
    && (forall x :: x in c.deleted <==> x.0 !in after && Lookup(before, x.0) == Some(x.1))
    && (forall o, n :: (o, n) in c.updated <==>
         o.0 == n.0 && o.1 != n.1 && Lookup(before, o.0) == Some(o.1) && Lookup(after, n.0) == Some(n.1))
  }

  lemma PartsOf(olds: seq<Entry>, news: seq<Entry>, before: map<string, Setting>, after: map<string, Setting>)
    requires Entries(olds, before) && Entries(news, after)
    ensures PartsAre(Compared(olds, news), before, after)
  {
    var c := Compared(olds, news);
    forall x: Entry
      ensures x in news <==> Lookup(after, x.0) == Some(x.1)
      ensures x in olds <==> Lookup(before, x.0) == Some(x.1)
    {
      EntryIff(news, after, x.0);
      EntryIff(olds, before, x.0);
    }
    forall x: Entry
      ensures x in c.added <==> x.0 !in before && Lookup(after, x.0) == Some(x.1)
      ensures x in c.deleted <==> x.0 !in after && Lookup(before, x.0) == Some(x.1)
    {
      AddedIff(olds, news, x);
      DeletedIff(olds, news, x);
      EntryIff(olds, before, x.0);
      EntryIff(news, after, x.0);
    }
    forall o: Entry, n: Entry
      ensures (o, n) in c.updated <==>
              o.0 == n.0 && o.1 != n.1 && Lookup(before, o.0) == Some(o.1) && Lookup(after, n.0) == Some(n.1)
    {
      UpdatedIff(olds, news, o, n);
    }
  }

  lemma HeadIn<T>(s: seq<T>)
    ensures s != [] ==> s[0] in s
  {
  }

  lemma PairHeadIn<A, B>(s: seq<(A, B)>)
    ensures s != [] ==> (s[0].0, s[0].1) in s
  {
    HeadIn(s);
  }

  lemma DifferenceShows(c: Comparison<Entry>, before: map<string, Setting>, after: map<string, Setting>, room: string)
    requires PartsAre(c, before, after) && Lookup(before, room) != Lookup(after, room)
    ensures c != Comparison([], [], [])
  {
    if room !in after {
      assert (room, before[room]) in c.deleted;
    } else if room !in before {
      assert (room, after[room]) in c.added;
    } else {
      assert ((room, before[room]), (room, after[room])) in c.updated;
    }
  }

  lemma NothingShows(c: Comparison<Entry>, same: map<string, Setting>)
    requires PartsAre(c, same, same)
    ensures c == Comparison([], [], [])
  {
    HeadIn(c.added);
    HeadIn(c.deleted);
    PairHeadIn(c.updated);
  }

  /** All parts are empty exactly when nothing changed. */
  lemma AllEmptyIff(c: Comparison<Entry>, before: map<string, Setting>, after: map<string, Setting>)
    requires PartsAre(c, before, after)
    ensures c == Comparison([], [], []) <==> before == after
  {
    if room :| Lookup(before, room) != Lookup(after, room) {
      DifferenceShows(c, before, after, room);
    } else {
      assert forall k :: (k in before <==> Lookup(before, k).Some?) && (k in after <==> Lookup(after, k).Some?);
      assert before == after;
      NothingShows(c, before);
    }
  }

  lemma RoomEventIn(entries: seq<Entry>, keep: bool, e: SettingsEvent)
    ensures e in RoomEvents(entries, keep) <==>
            exists x :: x in entries && e == RoomChanged(x.0, if keep then Some(x.1) else None)
  {
    var events := RoomEvents(entries, keep);
    if x :| x in entries && e == RoomChanged(x.0, if keep then Some(x.1) else None) {
      var i :| 0 <= i < |entries| && entries[i] == x;
      assert events[i] == e;
    }
    if e in events {
      var i :| 0 <= i < |events| && events[i] == e;
      assert entries[i] in entries;
    }
  }

  lemma SecondIn(pairs: seq<(Entry, Entry)>, n: Entry)
    ensures n in Seconds(pairs) <==> exists o :: (o, n) in pairs
  {
    var seconds := Seconds(pairs);
    if o :| (o, n) in pairs {
      var i :| 0 <= i < |pairs| && pairs[i] == (o, n);
      assert seconds[i] == n;
    }
    if n in seconds {
      var i :| 0 <= i < |seconds| && seconds[i] == n;
      assert (pairs[i].0, n) == pairs[i];
    }
  }

  lemma EventIn(c: Comparison<Entry>, e: SettingsEvent)
    ensures e in EventsOf(c) <==>
            || (exists x :: x in c.added && e == RoomChanged(x.0, Some(x.1)))
            || (exists x :: x in c.deleted && e == RoomChanged(x.0, None))
            || (exists o, n :: (o, n) in c.updated && e == RoomChanged(n.0, Some(n.1)))
  {
    RoomEventIn(c.added, true, e);
    RoomEventIn(c.deleted, false, e);
    RoomEventIn(Seconds(c.updated), true, e);
    if x :| x in Seconds(c.updated) && e == RoomChanged(x.0, Some(x.1)) {
      SecondIn(c.updated, x);
    }
    if o, n :| (o, n) in c.updated && e == RoomChanged(n.0, Some(n.1)) {
      SecondIn(c.updated, n);
    }
  }

  /** The events of the comparison tell exactly what changed. */
  lemma ComparisonTells(c: Comparison<Entry>, before: map<string, Setting>, after: map<string, Setting>)
    requires PartsAre(c, before, after)
    ensures Tells(EventsOf(c), before, after)
  {
    forall e | e in EventsOf(c)
      ensures e.RoomChanged? && e.setting == Lookup(after, e.room) && Lookup(before, e.room) != Lookup(after, e.room)
    {
      EventIn(c, e);
    }
    forall room | Lookup(before, room) != Lookup(after, room)
      ensures RoomChanged(room, Lookup(after, room)) in EventsOf(c)
    {
      EventIn(c, RoomChanged(room, Lookup(after, room)));
      if room !in after {
        assert (room, before[room]) in c.deleted;
      } else if room !in before {
        assert (room, after[room]) in c.added;
      } else {
        assert ((room, before[room]), (room, after[room])) in c.updated;
      }
    }
  }

  // ---- The manager ----

  class NotificationManager {
    var cached: Option<Settings>
    var sent: seq<SettingsEvent>

    constructor (initial: Option<Settings>)
      ensures cached == initial && sent == []
    {
      cached, sent := initial, [];
    }

    /** What an application that started from `initial` and followed all events shows. */
    function Shown(initial: Settings): Settings
      reads this
    {
      FollowAll(initial, sent)
    }

    /** The application shows the cached settings; as long as nothing is cached it shows no room setting. */
    ghost predicate InStep(initial: Settings)
      reads this
    {
      match cached
      case Some(settings) => Shown(initial) == settings
      case None => Shown(initial).rooms == map[]
    }

    method Send(e: SettingsEvent)
      modifies this`sent
      ensures sent == old(sent) + [e]
    {
      sent := sent + [e];
    }

    method SendRoomUpdates(entries: seq<Entry>, keep: bool)
      modifies this`sent
      ensures sent == old(sent) + RoomEvents(entries, keep)
    {
      for i := 0 to |entries|
        invariant sent == old(sent) + RoomEvents(entries, keep)[..i]
      {
        Send(RoomChanged(entries[i].0, if keep then Some(entries[i].1) else None));
      }
    }

    method CompareRoomChanges(olds: seq<Entry>, news: seq<Entry>)
      modifies this`sent
      ensures sent == old(sent) + EventsOf(Compared(olds, news))
    {
      var result := CompareLists(olds, news, SameRoom(), SameSetting());
      SendRoomUpdates(result.added, true);
      SendRoomUpdates(result.deleted, false);
      SendRoomUpdates(Seconds(result.updated), true);
    }

    /** After every change of the settings the application, following the events, shows the new settings. */
    method HandleSettingsChange(loaded: Settings, ghost initial: Settings)
      requires InStep(initial)
      modifies this
      ensures cached == Some(loaded)
      ensures InStep(initial) && old(sent) <= sent
      ensures old(cached) == Some(loaded) ==> sent == old(sent)
    {
      var before := cached;
      cached := Some(loaded);
      ghost var shown := Shown(initial);
      if before.None? || before.value.global != loaded.global {
        Send(GlobalChanged(loaded.global));
        assert Front(sent) == old(sent);
      }
      ghost var mid := sent;
      assert Shown(initial) == shown.(global := loaded.global);
      var oldRooms := if before.Some? then before.value.rooms else map[];
      var olds := EntriesOf(oldRooms);
      var news := EntriesOf(loaded.rooms);
      CompareRoomChanges(olds, news);
      PartsOf(olds, news, oldRooms, loaded.rooms);
      ComparisonTells(Compared(olds, news), oldRooms, loaded.rooms);
      TellingRebuilds(shown.(global := loaded.global), EventsOf(Compared(olds, news)), loaded.rooms);
      FollowConcat(initial, mid, EventsOf(Compared(olds, news)));
      if before == Some(loaded) {
        AllEmptyIff(Compared(olds, news), oldRooms, loaded.rooms);
        assert EventsOf(Compared(olds, news)) == [];
      }
    }
  }

  lemma {:induction false} FollowConcat(s: Settings, a: seq<SettingsEvent>, b: seq<SettingsEvent>)
    ensures FollowAll(s, a + b) == FollowAll(FollowAll(s, a), b)
    decreases |b|
  {
    if b == [] {
      assert a + b == a;
    } else {
      FollowConcat(s, a, Front(b));
      assert Front(a + b) == a + Front(b);
    }
  }

  /** What was cached before the change `k`. */
  function Before(start: Option<Settings>, changes: seq<Settings>, k: nat): Option<Settings>
    requires k <= |changes|
  {
    if k == 0 then start else Some(changes[k - 1])
  }

  /** The events up to the mark of change `k` lead to its settings; without a difference it sent none. */
  predicate Turn(
    initial: Settings, start: Option<Settings>, sent: seq<SettingsEvent>, changes: seq<Settings>, marks: seq<nat>,
    k: nat)
    requires k < |changes| < |marks|
  {
    && marks[k] <= marks[k + 1] <= |sent| && FollowAll(initial, sent[..marks[k + 1]]) == changes[k]
    && (Before(start, changes, k) == Some(changes[k]) ==> marks[k] == marks[k + 1])
  }

  ghost predicate Tracks(
    initial: Settings, start: Option<Settings>, sent: seq<SettingsEvent>, changes: seq<Settings>, marks: seq<nat>)
  {
    && |marks| == |changes| + 1 && marks[|changes|] == |sent|
    && forall k :: 0 <= k < |changes| ==> Turn(initial, start, sent, changes, marks, k)
  }

  lemma TracksNext(
    initial: Settings, start: Option<Settings>, sent: seq<SettingsEvent>, changes: seq<Settings>, marks: seq<nat>,
    now: Settings, after: seq<SettingsEvent>)
    requires Tracks(initial, start, sent, changes, marks) && sent <= after && FollowAll(initial, after) == now
    requires Before(start, changes, |changes|) == Some(now) ==> after == sent
    ensures Tracks(initial, start, after, changes + [now], marks + [|after|])
  {
    forall k | 0 <= k < |changes|
      ensures Turn(initial, start, after, changes + [now], marks + [|after|], k)
    {
      assert Turn(initial, start, sent, changes, marks, k);
      assert after[..marks[k + 1]] == sent[..marks[k + 1]];
    }
    assert after[..|after|] == after;
    assert Turn(initial, start, after, changes + [now], marks + [|after|], |changes|);
  }

  /** Over any run of changes the application shows, after each, the settings it led to. */
  method Serve(manager: NotificationManager, changes: seq<Settings>, ghost initial: Settings)
    returns (ghost marks: seq<nat>)
    requires manager.InStep(initial)
    modifies manager
    ensures Tracks(initial, old(manager.cached), manager.sent, changes, marks) && marks[0] == |old(manager.sent)|
    ensures old(manager.sent) <= manager.sent && manager.InStep(initial)
  {
    ghost var start := manager.cached;
    marks := [|manager.sent|];
    for k := 0 to |changes|
      invariant Tracks(initial, start, manager.sent, changes[..k], marks) && marks[0] == |old(manager.sent)|
      invariant old(manager.sent) <= manager.sent && manager.InStep(initial)
      invariant manager.cached == Before(start, changes, k)
    {
      ghost var sent := manager.sent;
      manager.HandleSettingsChange(changes[k], initial);
      assert changes[..k + 1] == changes[..k] + [changes[k]];
      TracksNext(initial, start, sent, changes[..k], marks, changes[k], manager.sent);
      marks := marks + [|manager.sent|];
    }
    assert changes[..|changes|] == changes;
  }
}
