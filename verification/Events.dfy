/** Read markers, suppression of duplicate room changes, and their replay (src/events.rs, src/memory_cache.rs). */
module Events {
  import opened Collections
  import opened Utils

  type Markers = map<string, int>

  // ---- The read markers of the memory cache ----

  /** `after` has every marker of `before`, none of them lower. */
  ghost predicate Raised(before: Markers, after: Markers) {
    forall u :: u in before ==> u in after && before[u] <= after[u]
  }

  predicate Rises(markers: Markers, user: string, ts: int) {
    user in markers ==> markers[user] < ts
  }

  /** The users whose marker rose, with the new values. */
  function Delta(before: Markers, after: Markers): Markers {
    map u | u in after && Rises(before, u, after[u]) :: after[u]
  }

  function MarkersOf(rooms: map<string, Markers>, room: string): Markers {
    if room in rooms then rooms[room] else map[]
  }

  ghost predicate AllRaised(before: map<string, Markers>, after: map<string, Markers>) {
    forall room :: Raised(MarkersOf(before, room), MarkersOf(after, room))
  }

  class MarkerCache {
    var rooms: map<string, Markers>
    /** Whether other tasks stay away from the markers. */
    const quiet: bool

    constructor (quiet: bool)
      ensures rooms == map[] && this.quiet == quiet
    {
      rooms := map[];
      this.quiet := quiet;
    }

    /** Other tasks may raise any markers between two uses of the cache. */
    method OtherTasks()
      modifies this
      ensures AllRaised(old(rooms), rooms)
      ensures quiet ==> rooms == old(rooms)
    {
      if !quiet {
        var others: map<string, Markers> := *;
        rooms := map room | room in rooms.Keys + others.Keys ::
          MaxMerged(MarkersOf(rooms, room), MarkersOf(others, room));
      }
    }

    method SetReadMarker(room: string, user: string, ts: int) returns (changed: bool)
      modifies this
      ensures changed == Rises(MarkersOf(old(rooms), room), user, ts)
      ensures var markers := MarkersOf(old(rooms), room);
              rooms == old(rooms)[room := if changed then markers[user := ts] else markers]
    {
      var markers := MarkersOf(rooms, room);
      if user in markers && markers[user] >= ts {
        rooms := rooms[room := markers];
        return false;
      }
      rooms := rooms[room := markers[user := ts]];
      return true;
    }
  }

  // ---- Receipts of an update ----

  datatype Receipt = Receipt(user: string, ts: Option<int>)

  /** The read receipts of one event, if it has any. */
  datatype Receipts = Receipts(read: Option<seq<Receipt>>)

  datatype Ephemeral = Unreadable | Typing(users: seq<string>) | ReceiptEvent(receipts: seq<Receipts>) | OtherContent

  function RaiseOne(markers: Markers, r: Receipt): Markers {
    if r.ts.Some? && Rises(markers, r.user, r.ts.value) then markers[r.user := r.ts.value] else markers
  }

  function RaiseReceipts(markers: Markers, rs: seq<Receipt>): Markers {
    if rs == [] then markers else RaiseOne(RaiseReceipts(markers, Front(rs)), Last(rs))
  }

  function ReadOf(r: Receipts): seq<Receipt> {
    if r.read.Some? then r.read.value else []
  }

  function RaiseAll(markers: Markers, rs: seq<Receipts>): Markers {
    if rs == [] then markers else RaiseReceipts(RaiseAll(markers, Front(rs)), ReadOf(Last(rs)))
  }

  function ReceiptsIn(e: Ephemeral): seq<Receipts> {
    if e.ReceiptEvent? then e.receipts else []
  }

  function RaiseUpdate(markers: Markers, update: seq<Ephemeral>): Markers {
    if update == [] then markers else RaiseAll(RaiseUpdate(markers, Front(update)), ReceiptsIn(Last(update)))
  }

  /** Deltas compose: merging them with the greater value gives the delta over both stretches. */
  lemma DeltaCompose(a: Markers, b: Markers, c: Markers)
    requires Raised(a, b) && Raised(b, c)
    ensures Raised(a, c)
    ensures MaxMerged(Delta(a, b), Delta(b, c)) == Delta(a, c)
  {
  }

  /** What a delta says even if other tasks raise markers meanwhile: each value was new, and is cached by now. */
  ghost predicate NewAndCached(delta: Markers, before: Markers, after: Markers) {
    forall u :: u in delta ==> Rises(before, u, delta[u]) && u in after && delta[u] <= after[u]
  }

  // ---- Room changes ----

  datatype RoomChange = RoomChange(
    room: string, typing: Option<seq<string>>, readMarker: Option<Markers>, unreadCount: Option<int>)

  const MAX_QUEUED_ROOM_CHANGES := 15

  function Newest<T>(s: seq<T>, n: nat): seq<T> {
    if |s| <= n then s else s[|s| - n..]
  }

  ghost predicate AdjacentDiffer<T>(s: seq<T>) {
    forall i :: 0 <= i < |s| - 1 ==> s[i] != s[i + 1]
  }

  class EventExecutor {
    const cache: MarkerCache
    var roomChanges: map<string, seq<RoomChange>>
    var sent: seq<RoomChange>
    /** All changes tracked for a room since its last replay. */
    ghost var tracked: map<string, seq<RoomChange>>

    constructor (cache: MarkerCache)
      ensures this.cache == cache && sent == [] && Valid()
    {
      this.cache := cache;
      roomChanges, sent, tracked := map[], [], map[];
    }

    ghost predicate Valid()
      reads this, cache
    {
      QueuesKept(roomChanges, tracked) && MarkersCached(tracked, cache.rooms)
    }

    /** Caches one receipt; other tasks may run before the use of the cache. */
    method ReadReceipt(room: string, receipt: Receipt, soFar: Markers, ghost start: map<string, Markers>)
      returns (result: Markers)
      requires Gathered(cache.quiet, room, start, cache.rooms, soFar)
      modifies cache
      ensures AllRaised(old(cache.rooms), cache.rooms)
      ensures Gathered(cache.quiet, room, start, cache.rooms, result)
      ensures cache.quiet ==>
        OnlyRoom(room, old(cache.rooms), cache.rooms, RaiseOne(MarkersOf(old(cache.rooms), room), receipt))
    {
      result := soFar;
      if receipt.ts.None? {
        return;
      }
      cache.OtherTasks();
      ghost var now := cache.rooms;
      GatheredLater(cache.quiet, room, start, old(cache.rooms), now, soFar);
      GatheredSet(cache.quiet, room, start, now, soFar, receipt.user, receipt.ts.value);
      var changed := cache.SetReadMarker(room, receipt.user, receipt.ts.value);
      if changed {
        result := result[receipt.user := receipt.ts.value];
      }
      AllRaisedTrans(old(cache.rooms), now, cache.rooms);
    }

    /** Reads one event's receipts into `soFar`. */
    method ReadReceipts(room: string, list: seq<Receipt>, soFar: Markers, ghost start: map<string, Markers>)
      returns (result: Markers)
      requires Gathered(cache.quiet, room, start, cache.rooms, soFar)
      modifies cache
      ensures AllRaised(old(cache.rooms), cache.rooms)
      ensures Gathered(cache.quiet, room, start, cache.rooms, result)
      ensures cache.quiet ==>
        OnlyRoom(room, old(cache.rooms), cache.rooms, RaiseReceipts(MarkersOf(old(cache.rooms), room), list))
    {
      result := soFar;
      for k := 0 to |list|
        invariant AllRaised(old(cache.rooms), cache.rooms)
        invariant Gathered(cache.quiet, room, start, cache.rooms, result)
        invariant cache.quiet ==>
          OnlyRoom(room, old(cache.rooms), cache.rooms, RaiseReceipts(MarkersOf(old(cache.rooms), room), list[..k]))
      {
        assert Front(list[..k + 1]) == list[..k] && Last(list[..k + 1]) == list[k];
        ghost var was := cache.rooms;
        result := ReadReceipt(room, list[k], result, start);
        AllRaisedTrans(old(cache.rooms), was, cache.rooms);
      }
      assert list[..|list|] == list;
    }

    method ProcessReceipts(room: string, receipts: seq<Receipts>) returns (result: Markers)
      modifies cache
      ensures AllRaised(old(cache.rooms), cache.rooms)
      ensures Gathered(cache.quiet, room, old(cache.rooms), cache.rooms, result)
      ensures cache.quiet ==>
        OnlyRoom(room, old(cache.rooms), cache.rooms, RaiseAll(MarkersOf(old(cache.rooms), room), receipts))
    {
      result := map[];
      ghost var start := cache.rooms;
      for k := 0 to |receipts|
        invariant AllRaised(start, cache.rooms)
        invariant Gathered(cache.quiet, room, start, cache.rooms, result)
        invariant cache.quiet ==> OnlyRoom(room, start, cache.rooms, RaiseAll(MarkersOf(start, room), receipts[..k]))
      {
        assert Front(receipts[..k + 1]) == receipts[..k] && Last(receipts[..k + 1]) == receipts[k];
        if receipts[k].read.Some? {
          ghost var was := cache.rooms;
          result := ReadReceipts(room, receipts[k].read.value, result, start);
          AllRaisedTrans(start, was, cache.rooms);
        }
      }
      assert receipts[..|receipts|] == receipts;
    }

    /** The read marker change of an update: exact if nobody else writes, new and cached in any case. */
    method GetReadMarker(room: string, update: seq<Ephemeral>) returns (r: Option<Markers>)
      modifies cache
      ensures AllRaised(old(cache.rooms), cache.rooms)
      ensures r.Some? ==> r.value != map[]
      ensures Gathered(cache.quiet, room, old(cache.rooms), cache.rooms, if r.Some? then r.value else map[])
      ensures cache.quiet ==>
        OnlyRoom(room, old(cache.rooms), cache.rooms, RaiseUpdate(MarkersOf(old(cache.rooms), room), update))
      ensures cache.quiet ==>
        TellsMarkers(MarkersOf(old(cache.rooms), room), update, if r.Some? then r.value else map[])
    {
      DeltaTells(MarkersOf(cache.rooms, room), update);
      var result: Markers := map[];
      ghost var start := cache.rooms;
      for k := 0 to |update|
        invariant AllRaised(start, cache.rooms)
        invariant Gathered(cache.quiet, room, start, cache.rooms, result)
        invariant cache.quiet ==> OnlyRoom(room, start, cache.rooms, RaiseUpdate(MarkersOf(start, room), update[..k]))
      {
        assert Front(update[..k + 1]) == update[..k] && Last(update[..k + 1]) == update[k];
        if update[k].ReceiptEvent? {
          ghost var was := cache.rooms;
          var new_ := ProcessReceipts(room, update[k].receipts);
          GatheredMerged(cache.quiet, room, start, was, cache.rooms, result, new_);
          result := MergeMapMax(result, new_);
          AllRaisedTrans(start, was, cache.rooms);
        }
      }
      assert update[..|update|] == update;
      r := if result == map[] then None else Some(result);
    }

    method GetUserTypingList(update: seq<Ephemeral>) returns (r: Option<seq<string>>)
      ensures r == TypingIn(update)
      ensures IsTyping(update, r)
    {
      TypingInIs(update);
      r := None;
      for k := 0 to |update|
        invariant r == TypingIn(update[..k])
      {
        assert Front(update[..k + 1]) == update[..k] && Last(update[..k + 1]) == update[k];
        if update[k].Typing? {
          r := Some(update[k].users);
        }
      }
      assert update[..|update|] == update;
    }

    /** Tracks and sends a change unless it repeats the last one tracked for the room. */
    method SendIfNew(change: RoomChange)
      requires Valid()
      requires change.readMarker.Some? ==> Raised(change.readMarker.value, MarkersOf(cache.rooms, change.room))
      modifies this
      ensures Valid()
      ensures if IsNew(old(roomChanges), change)
              then sent == old(sent) + [change] && roomChanges == Queued(old(roomChanges), change)
              else sent == old(sent) && roomChanges == old(roomChanges)
      ensures sent == old(sent) + if IsLast(old(roomChanges), change) then [] else [change]
      ensures IsLast(roomChanges, change)
    {
      var new_ := IsNewRoomChange(change);
      if !new_ {
        return;
      }
      TrackRoomChange(change);
      sent := sent + [change];
    }

    /** The typing users and read markers of an update, in one change. */
    method SendEphemeral(room: string, update: seq<Ephemeral>) returns (ghost delta: Option<Markers>)
      requires Valid()
      modifies this, cache
      ensures Valid()
      ensures Gathered(cache.quiet, room, old(cache.rooms), cache.rooms, if delta.Some? then delta.value else map[])
      ensures delta.Some? ==> delta.value != map[] && sent != []
                              && Last(sent) == RoomChange(room, TypingIn(update), delta, None)
      ensures cache.quiet ==>
        TellsMarkers(MarkersOf(old(cache.rooms), room), update, if delta.Some? then delta.value else map[])
      ensures sent == old(sent) + Unrepeated(old(roomChanges), EphemeralChange(room, TypingIn(update), delta))
    {
      ghost var queues, was, before := roomChanges, tracked, cache.rooms;
      var typing := GetUserTypingList(update);
      var readMarker := GetReadMarker(room, update);
      delta := readMarker;
      StillCached(was, before, cache.rooms);
      if typing.None? && readMarker.None? {
        return;
      }
      var change := RoomChange(room, typing, readMarker, None);
      if readMarker.Some? {
        DeltaNeverRepeats(was, before, queues, change);
      }
      SendIfNew(change);
    }

    /**
     * An update of a joined room: the unread count if it may be sent, then typing users and read markers.
     * A change that carries read markers is always sent, whatever other tasks do to the markers meanwhile.
     */
    method ExecJoinedRoomUpdate(room: string, known: bool, unread: Option<int>, update: seq<Ephemeral>)
      returns (ghost delta: Option<Markers>)
      requires Valid()
      modifies this, cache
      ensures Valid()
      ensures AllRaised(old(cache.rooms), cache.rooms)
      ensures known ==>
                Gathered(cache.quiet, room, old(cache.rooms), cache.rooms, if delta.Some? then delta.value else map[])
      ensures delta.Some? ==> known && delta.value != map[] && sent != []
                              && Last(sent) == RoomChange(room, TypingIn(update), delta, None)
      ensures cache.quiet && known ==>
        TellsMarkers(MarkersOf(old(cache.rooms), room), update, if delta.Some? then delta.value else map[])
      ensures sent == old(sent) + Unrepeated(old(roomChanges), CountChange(room, unread)) +
              if known then Unrepeated(QueuedIfNew(old(roomChanges), CountChange(room, unread)),
                                       EphemeralChange(room, TypingIn(update), delta)) else []
      ensures old(sent) <= sent
      ensures TellsUpdate(old(roomChanges), room, known, unread, update, delta, sent[|old(sent)|..])
    {
      ghost var queues, start := roomChanges, sent;
      delta := None;
      if unread.Some? {
        SendIfNew(RoomChange(room, None, None, unread));
      }
      AllRaisedRefl(cache.rooms);
      if known {
        delta := SendEphemeral(room, update);
      }
      UpdateTells(queues, room, known, unread, update, delta, sent[|start|..]);
    }

    /** A replay sends the queue in order and empties it. */
    method ExecQueuedRoomChanges(room: string)
      requires Valid()
      modifies this
      ensures Valid()
      ensures var all := QueueOf(old(tracked), room);
              sent == old(sent) + if |all| <= 15 then all else all[|all| - 15..]
      ensures QueueOf(roomChanges, room) == [] && QueueOf(tracked, room) == []
      ensures forall other :: other != room ==> QueueOf(roomChanges, other) == QueueOf(old(roomChanges), other)
    {
      assert QueueOf(roomChanges, room) == Newest(QueueOf(tracked, room), MAX_QUEUED_ROOM_CHANGES);
      if room !in roomChanges {
        assert QueueOf(tracked, room) == [];
        return;
      }
      var changes := roomChanges[room];
      roomChanges := roomChanges[room := []];
      tracked := tracked[room := []];
      for k := 0 to |changes|
        invariant sent == old(sent) + changes[..k]
        invariant roomChanges == old(roomChanges)[room := []] && tracked == old(tracked)[room := []]
      {
        sent := sent + [changes[k]];
      }
      assert changes[..|changes|] == changes;
      assert Valid() by {
        Replayed(old(roomChanges), old(tracked), cache.rooms, room);
      }
    }

    method TrackRoomChange(change: RoomChange)
      requires QueuesNewest(roomChanges, tracked)
      modifies this`roomChanges, this`tracked
      ensures tracked == old(tracked)[change.room := QueueOf(old(tracked), change.room) + [change]]
      ensures roomChanges == Queued(old(roomChanges), change)
      ensures QueuesNewest(roomChanges, tracked)
      ensures Unrepeating(old(tracked)) && IsNew(old(roomChanges), change) ==> Unrepeating(tracked)
    {
      var entry := QueueOf(roomChanges, change.room);
      if |entry| >= MAX_QUEUED_ROOM_CHANGES {
        entry := entry[1..];
      }
      roomChanges := roomChanges[change.room := entry + [change]];
      tracked := tracked[change.room := QueueOf(tracked, change.room) + [change]];
      QueueGrows(old(roomChanges), old(tracked), change);
      if Unrepeating(old(tracked)) && IsNew(old(roomChanges), change) {
        StillUnrepeating(old(roomChanges), old(tracked), change);
      }
    }

    method IsNewRoomChange(change: RoomChange) returns (new_: bool)
      ensures new_ == IsNew(roomChanges, change)
    {
      if change.room !in roomChanges {
        return true;
      }
      var queue := roomChanges[change.room];
      if queue == [] {
        return true;
      }
      return Last(queue) != change;
    }
  }

  /** The change is the last one tracked for its room. */
  predicate IsLast(queues: map<string, seq<RoomChange>>, change: RoomChange) {
    change.room in queues && queues[change.room] != [] && queues[change.room][|queues[change.room]| - 1] == change
  }

  function QueueOf(queues: map<string, seq<RoomChange>>, room: string): seq<RoomChange> {
    if room in queues then queues[room] else []
  }

  /** The queues with the change at the end of its room's, the oldest of a full queue dropped. */
  function Queued(queues: map<string, seq<RoomChange>>, change: RoomChange): map<string, seq<RoomChange>> {
    var queue := QueueOf(queues, change.room);
    queues[change.room := (if |queue| >= MAX_QUEUED_ROOM_CHANGES then queue[1..] else queue) + [change]]
  }

  function CountChange(room: string, unread: Option<int>): Option<RoomChange> {
    if unread.Some? then Some(RoomChange(room, None, None, unread)) else None
  }

  function EphemeralChange(room: string, typing: Option<seq<string>>, delta: Option<Markers>): Option<RoomChange> {
    if typing.Some? || delta.Some? then Some(RoomChange(room, typing, delta, None)) else None
  }

  function QueuedIfNew(queues: map<string, seq<RoomChange>>, change: Option<RoomChange>): map<string, seq<RoomChange>> {
    if change.Some? && IsNew(queues, change.value) then Queued(queues, change.value) else queues
  }

  function Unrepeated(queues: map<string, seq<RoomChange>>, change: Option<RoomChange>): seq<RoomChange> {
    if change.Some? && IsNew(queues, change.value) then [change.value] else []
  }

  predicate IsNew(queues: map<string, seq<RoomChange>>, change: RoomChange) {
    var queue := QueueOf(queues, change.room);
    queue == [] || Last(queue) != change
  }

  /** Each queue holds the newest 15 changes tracked since the last replay. */
  ghost predicate QueuesNewest(queues: map<string, seq<RoomChange>>, tracked: map<string, seq<RoomChange>>) {
    forall room ::
      && QueueOf(queues, room) == Newest(QueueOf(tracked, room), MAX_QUEUED_ROOM_CHANGES)
      && forall c :: c in QueueOf(tracked, room) ==> c.room == room
  }

  /** No change repeats its predecessor. */
  ghost predicate Unrepeating(tracked: map<string, seq<RoomChange>>) {
    forall room :: AdjacentDiffer(QueueOf(tracked, room))
  }

  ghost predicate QueuesKept(queues: map<string, seq<RoomChange>>, tracked: map<string, seq<RoomChange>>) {
    QueuesNewest(queues, tracked) && Unrepeating(tracked)
  }

  /** Every read marker ever tracked is at most the cached one. */
  ghost predicate MarkersCached(tracked: map<string, seq<RoomChange>>, rooms: map<string, Markers>) {
    forall room, c :: c in QueueOf(tracked, room) && c.readMarker.Some? ==>
      Raised(c.readMarker.value, MarkersOf(rooms, room))
  }

  lemma QueueGrows(queues: map<string, seq<RoomChange>>, tracked: map<string, seq<RoomChange>>, change: RoomChange)
    requires QueuesNewest(queues, tracked)
    ensures var all := QueueOf(tracked, change.room);
            QueuesNewest(Queued(queues, change), tracked[change.room := all + [change]])
  {
    var q, all := QueueOf(queues, change.room), QueueOf(tracked, change.room);
    var q' := (if |q| >= MAX_QUEUED_ROOM_CHANGES then q[1..] else q) + [change];
    assert q' == Newest(all + [change], MAX_QUEUED_ROOM_CHANGES);
    var queues', tracked' := Queued(queues, change), tracked[change.room := all + [change]];
    forall room | room != change.room
      ensures QueueOf(queues', room) == QueueOf(queues, room) && QueueOf(tracked', room) == QueueOf(tracked, room)
    {
    }
  }

  lemma StillUnrepeating(
    queues: map<string, seq<RoomChange>>, tracked: map<string, seq<RoomChange>>, change: RoomChange)
    requires QueuesKept(queues, tracked) && IsNew(queues, change)
    ensures Unrepeating(tracked[change.room := QueueOf(tracked, change.room) + [change]])
  {
    var q, all := QueueOf(queues, change.room), QueueOf(tracked, change.room);
    assert all != [] ==> q != [] && Last(q) == Last(all);
    var tracked' := tracked[change.room := all + [change]];
    assert AdjacentDiffer(all + [change]) by {
      assert AdjacentDiffer(all);
    }
    forall room
      ensures AdjacentDiffer(QueueOf(tracked', room))
    {
      assert AdjacentDiffer(QueueOf(tracked, room));
    }
  }

  /** A delta of markers newer than anything cached when it was computed cannot repeat a tracked change. */
  lemma DeltaNeverRepeats(
    tracked: map<string, seq<RoomChange>>, before: map<string, Markers>, queues: map<string, seq<RoomChange>>,
    change: RoomChange)
    requires QueuesKept(queues, tracked) && MarkersCached(tracked, before)
    requires change.readMarker.Some? && change.readMarker.value != map[]
    requires forall u :: u in change.readMarker.value ==>
               Rises(MarkersOf(before, change.room), u, change.readMarker.value[u])
    ensures IsNew(queues, change)
  {
    var queue, all := QueueOf(queues, change.room), QueueOf(tracked, change.room);
    var u :| u in change.readMarker.value;
    if queue != [] {
      assert Last(queue) in all;
      assert Last(queue).readMarker.Some? ==> Raised(Last(queue).readMarker.value, MarkersOf(before, change.room));
    }
  }

  /** What a walk over receipts has gathered: new and cached values, and the exact delta if nobody else writes. */
  ghost predicate Gathered(
    quiet: bool, room: string, start: map<string, Markers>, rooms: map<string, Markers>, result: Markers)
  {
    && AllRaised(start, rooms)
    && NewAndCached(result, MarkersOf(start, room), MarkersOf(rooms, room))
    && (quiet ==> result == Delta(MarkersOf(start, room), MarkersOf(rooms, room)))
  }

  ghost predicate OnlyRoom(room: string, before: map<string, Markers>, after: map<string, Markers>, markers: Markers) {
    MarkersOf(after, room) == markers && forall r :: r != room ==> MarkersOf(after, r) == MarkersOf(before, r)
  }

  lemma GatheredLater(
    quiet: bool, room: string, start: map<string, Markers>, was: map<string, Markers>, now: map<string, Markers>,
    result: Markers)
    requires Gathered(quiet, room, start, was, result) && AllRaised(was, now) && (quiet ==> now == was)
    ensures Gathered(quiet, room, start, now, result)
  {
    forall r
      ensures Raised(MarkersOf(start, r), MarkersOf(now, r))
    {
      assert Raised(MarkersOf(start, r), MarkersOf(was, r)) && Raised(MarkersOf(was, r), MarkersOf(now, r));
    }
    assert Raised(MarkersOf(was, room), MarkersOf(now, room));
  }

  lemma GatheredSet(
    quiet: bool, room: string, start: map<string, Markers>, now: map<string, Markers>, result: Markers, user: string,
    ts: int)
    requires Gathered(quiet, room, start, now, result)
    ensures var m := MarkersOf(now, room);
            var changed := Rises(m, user, ts);
            var after := now[room := if changed then m[user := ts] else m];
            AllRaised(now, after) && Gathered(quiet, room, start, after, if changed then result[user := ts] else result)
  {
    var m, from_ := MarkersOf(now, room), MarkersOf(start, room);
    var changed := Rises(m, user, ts);
    var after := now[room := if changed then m[user := ts] else m];
    forall r
      ensures Raised(MarkersOf(now, r), MarkersOf(after, r)) && Raised(MarkersOf(start, r), MarkersOf(after, r))
    {
      assert Raised(MarkersOf(start, r), MarkersOf(now, r));
    }
    if changed {
      assert Delta(from_, m[user := ts]) == Delta(from_, m)[user := ts];
    }
  }

  lemma AllRaisedTrans(a: map<string, Markers>, b: map<string, Markers>, c: map<string, Markers>)
    requires AllRaised(a, b) && AllRaised(b, c)
    ensures AllRaised(a, c)
  {
    forall r
      ensures Raised(MarkersOf(a, r), MarkersOf(c, r))
    {
      assert Raised(MarkersOf(a, r), MarkersOf(b, r)) && Raised(MarkersOf(b, r), MarkersOf(c, r));
    }
  }

  /** Merging what two successive walks gathered. */
  lemma GatheredMerged(
    quiet: bool, room: string, start: map<string, Markers>, mid: map<string, Markers>, end: map<string, Markers>,
    first: Markers, second: Markers)
    requires Gathered(quiet, room, start, mid, first) && Gathered(quiet, room, mid, end, second)
    ensures Gathered(quiet, room, start, end, MaxMerged(first, second))
  {
    AllRaisedTrans(start, mid, end);
    assert Raised(MarkersOf(start, room), MarkersOf(mid, room)) && Raised(MarkersOf(mid, room), MarkersOf(end, room));
    DeltaCompose(MarkersOf(start, room), MarkersOf(mid, room), MarkersOf(end, room));
  }

  /** The users of the last typing notification. */
  function TypingIn(update: seq<Ephemeral>): Option<seq<string>> {
    if update == [] then None
    else if Last(update).Typing? then Some(Last(update).users)
    else TypingIn(Front(update))
  }

  /** Nobody is named without a typing notification; otherwise those named are the users of the last one. */
  ghost predicate IsTyping(update: seq<Ephemeral>, r: Option<seq<string>>) {
    && (r.None? <==> forall k :: 0 <= k < |update| ==> !update[k].Typing?)
    && forall k :: IsLastTyping(update, k) ==> r == Some(update[k].users)
  }

  predicate IsLastTyping(update: seq<Ephemeral>, k: int) {
    0 <= k < |update| && update[k].Typing? && forall j :: k < j < |update| ==> !update[j].Typing?
  }

  lemma {:induction false} TypingInIs(update: seq<Ephemeral>)
    ensures IsTyping(update, TypingIn(update))
  {
    if update == [] {
    } else {
      TypingInIs(Front(update));
      TypingNext(Front(update), Last(update), TypingIn(Front(update)));
      assert Front(update) + [Last(update)] == update;
    }
  }

  lemma TypingNext(before: seq<Ephemeral>, e: Ephemeral, r: Option<seq<string>>)
    requires IsTyping(before, r)
    ensures IsTyping(before + [e], if e.Typing? then Some(e.users) else r)
  {
    var all, n := before + [e], |before|;
    assert all[n] == e && forall j :: 0 <= j < n ==> all[j] == before[j];
    forall k | IsLastTyping(all, k) && k < n
      ensures IsLastTyping(before, k)
    {
    }
  }

  lemma AllRaisedRefl(a: map<string, Markers>)
    ensures AllRaised(a, a)
  {
  }

  lemma StillCached(tracked: map<string, seq<RoomChange>>, before: map<string, Markers>, after: map<string, Markers>)
    requires MarkersCached(tracked, before) && AllRaised(before, after)
    ensures MarkersCached(tracked, after)
  {
    forall room, c | c in QueueOf(tracked, room) && c.readMarker.Some?
      ensures Raised(c.readMarker.value, MarkersOf(after, room))
    {
      assert Raised(c.readMarker.value, MarkersOf(before, room))
        && Raised(MarkersOf(before, room), MarkersOf(after, room));
    }
  }

  lemma Replayed(
    queues: map<string, seq<RoomChange>>, tracked: map<string, seq<RoomChange>>, rooms: map<string, Markers>,
    room: string)
    requires QueuesKept(queues, tracked) && MarkersCached(tracked, rooms)
    ensures QueuesKept(queues[room := []], tracked[room := []]) && MarkersCached(tracked[room := []], rooms)
  {
    var queues', tracked' := queues[room := []], tracked[room := []];
    forall r
      ensures QueueOf(queues', r) == (if r == room then [] else QueueOf(queues, r))
      ensures QueueOf(tracked', r) == if r == room then [] else QueueOf(tracked, r)
    {
    }
  }

  // ---- What the cached markers are ----

  function FlatReceipts(rs: seq<Receipts>): seq<Receipt> {
    if rs == [] then [] else FlatReceipts(Front(rs)) + ReadOf(Last(rs))
  }

  function FlatUpdate(update: seq<Ephemeral>): seq<Receipt> {
    if update == [] then [] else FlatUpdate(Front(update)) + FlatReceipts(ReceiptsIn(Last(update)))
  }

  lemma {:induction false} RaiseConcat(m: Markers, a: seq<Receipt>, b: seq<Receipt>)
    ensures RaiseReceipts(m, a + b) == RaiseReceipts(RaiseReceipts(m, a), b)
    decreases |b|
  {
    if b == [] {
      assert a + b == a;
    } else {
      RaiseConcat(m, a, Front(b));
      assert Front(a + b) == a + Front(b);
    }
  }

  lemma {:induction false} RaiseAllFlat(m: Markers, rs: seq<Receipts>)
    ensures RaiseAll(m, rs) == RaiseReceipts(m, FlatReceipts(rs))
  {
    if rs == [] {
    } else {
      RaiseAllFlat(m, Front(rs));
      RaiseConcat(m, FlatReceipts(Front(rs)), ReadOf(Last(rs)));
    }
  }

  /** However the receipts are nested, they raise the markers like one list. */
  lemma {:induction false} RaiseUpdateFlat(m: Markers, update: seq<Ephemeral>)
    ensures RaiseUpdate(m, update) == RaiseReceipts(m, FlatUpdate(update))
  {
    if update == [] {
    } else {
      RaiseUpdateFlat(m, Front(update));
      RaiseAllFlat(RaiseUpdate(m, Front(update)), ReceiptsIn(Last(update)));
      RaiseConcat(m, FlatUpdate(Front(update)), FlatReceipts(ReceiptsIn(Last(update))));
    }
  }

  /** `after` has, for the user, the greatest of the old marker and the timestamps received. */
  ghost predicate GreatestFor(before: Markers, list: seq<Receipt>, after: Markers, user: string) {
    && (user in after <==> user in before || exists ts :: Receipt(user, Some(ts)) in list)
    && (user in after ==>
         && (user in before ==> before[user] <= after[user])
         && (forall ts :: Receipt(user, Some(ts)) in list ==> ts <= after[user])
         && ((user in before && after[user] == before[user]) || Receipt(user, Some(after[user])) in list))
  }

  lemma {:induction false} RaiseIsGreatest(m: Markers, list: seq<Receipt>, user: string)
    ensures GreatestFor(m, list, RaiseReceipts(m, list), user)
  {
    if list == [] {
    } else {
      RaiseIsGreatest(m, Front(list), user);
      var mid, r := RaiseReceipts(m, Front(list)), Last(list);
      assert forall x :: x in list <==> x in Front(list) || x == r by {
        assert list == Front(list) + [r];
      }
      if r.user == user && r.ts.Some? {
        assert r == Receipt(user, Some(r.ts.value));
      }
    }
  }

  /** Somewhere in the update is a read receipt of the user with this time. */
  ghost predicate Received(update: seq<Ephemeral>, user: string, ts: int) {
    exists k, j :: 0 <= k < |update| && update[k].ReceiptEvent? && 0 <= j < |update[k].receipts|
                   && update[k].receipts[j].read.Some? && Receipt(user, Some(ts)) in update[k].receipts[j].read.value
  }

  ghost predicate ReceivedIn(receipts: seq<Receipts>, r: Receipt) {
    exists j :: 0 <= j < |receipts| && receipts[j].read.Some? && r in receipts[j].read.value
  }

  lemma {:induction false} FlatReceiptsIff(receipts: seq<Receipts>, r: Receipt)
    ensures r in FlatReceipts(receipts) <==> ReceivedIn(receipts, r)
  {
    if receipts == [] {
    } else {
      var front, n := Front(receipts), |receipts| - 1;
      FlatReceiptsIff(front, r);
      assert forall j :: 0 <= j < n ==> front[j] == receipts[j];
      if ReceivedIn(front, r) {
        var j :| 0 <= j < n && front[j].read.Some? && r in front[j].read.value;
        assert receipts[j].read.Some? && r in receipts[j].read.value;
      }
    }
  }

  lemma {:induction false} FlatUpdateIff(update: seq<Ephemeral>, user: string, ts: int)
    ensures Receipt(user, Some(ts)) in FlatUpdate(update) <==> Received(update, user, ts)
  {
    if update == [] {
    } else {
      var front, n, r := Front(update), |update| - 1, Receipt(user, Some(ts));
      FlatUpdateIff(front, user, ts);
      FlatReceiptsIff(ReceiptsIn(update[n]), r);
      assert forall k :: 0 <= k < n ==> front[k] == update[k];
      if Received(front, user, ts) {
        var k, j :| 0 <= k < n && front[k].ReceiptEvent? && 0 <= j < |front[k].receipts|
                    && front[k].receipts[j].read.Some? && r in front[k].receipts[j].read.value;
        assert update[k].receipts[j].read.Some? && r in update[k].receipts[j].read.value;
      }
      if update[n].ReceiptEvent? && ReceivedIn(update[n].receipts, r) {
        var j :| 0 <= j < |update[n].receipts| && update[n].receipts[j].read.Some?
                 && r in update[n].receipts[j].read.value;
        assert Received(update, user, ts);
      }
    }
  }

  /** The change names exactly the users with a receipt newer than their marker, each with the newest received. */
  ghost predicate TellsMarkers(before: Markers, update: seq<Ephemeral>, delta: Markers) {
    forall user :: TellsMarker(before, update, delta, user)
  }

  ghost predicate TellsMarker(before: Markers, update: seq<Ephemeral>, delta: Markers, user: string) {
    && (user in delta <==> exists ts :: Received(update, user, ts) && (user in before ==> before[user] < ts))
    && (user in delta ==> Received(update, user, delta[user])
                          && forall ts :: Received(update, user, ts) ==> ts <= delta[user])
  }

  lemma DeltaTells(before: Markers, update: seq<Ephemeral>)
    ensures TellsMarkers(before, update, Delta(before, RaiseUpdate(before, update)))
  {
    RaiseUpdateFlat(before, update);
    forall user
      ensures TellsMarker(before, update, Delta(before, RaiseUpdate(before, update)), user)
    {
      RaiseIsGreatest(before, FlatUpdate(update), user);
      forall ts: int
        ensures Receipt(user, Some(ts)) in FlatUpdate(update) <==> Received(update, user, ts)
      {
        FlatUpdateIff(update, user, ts);
      }
      GreatestTells(before, FlatUpdate(update), RaiseReceipts(before, FlatUpdate(update)), update, user);
    }
  }

  lemma GreatestTells(before: Markers, list: seq<Receipt>, after: Markers, update: seq<Ephemeral>, user: string)
    requires GreatestFor(before, list, after, user)
    requires forall ts :: Receipt(user, Some(ts)) in list <==> Received(update, user, ts)
    ensures TellsMarker(before, update, Delta(before, after), user)
  {
    if user in Delta(before, after) {
      assert Received(update, user, after[user]);
    }
    if ts :| Received(update, user, ts) && (user in before ==> before[user] < ts) {
      assert Receipt(user, Some(ts)) in list;
    }
  }

  /**
   * What an update sends: first, unless it was tracked last, the unread count; last, if the room is known and unless
   * it was tracked last, the users of the last typing notification with the markers; nothing else.
   */
  ghost predicate TellsUpdate(
    queues: map<string, seq<RoomChange>>, room: string, known: bool, unread: Option<int>, update: seq<Ephemeral>,
    delta: Option<Markers>, sends: seq<RoomChange>)
  {
    && (known ==> forall k :: IsLastTyping(update, k) ==>
          var change := RoomChange(room, Some(update[k].users), delta, None);
          (sends != [] && Last(sends) == change) || (unread.None? && IsLast(queues, change)))
    && (unread.Some? && !IsLast(queues, RoomChange(room, None, None, unread)) ==>
          sends != [] && sends[0] == RoomChange(room, None, None, unread))
    && (!known || ((forall k :: !IsLastTyping(update, k)) && delta.None?) ==>
          forall c :: c in sends ==> unread.Some? && c == RoomChange(room, None, None, unread))
  }

  lemma UnrepeatedIs(queues: map<string, seq<RoomChange>>, c: RoomChange)
    ensures Unrepeated(queues, Some(c)) == if IsLast(queues, c) then [] else [c]
    ensures IsLast(QueuedIfNew(queues, Some(c)), c)
  {
  }

  /** The change after the count, if any, is sent unless it was tracked last and there is no count. */
  lemma SecondSend(
    queues: map<string, seq<RoomChange>>, room: string, unread: Option<int>, typing: Option<seq<string>>,
    delta: Option<Markers>)
    requires typing.Some? || delta.Some?
    ensures var change := RoomChange(room, typing, delta, None);
      Unrepeated(QueuedIfNew(queues, CountChange(room, unread)), Some(change)) ==
      if unread.None? && IsLast(queues, change) then [] else [change]
  {
    var change := RoomChange(room, typing, delta, None);
    UnrepeatedIs(QueuedIfNew(queues, CountChange(room, unread)), change);
    if unread.Some? {
      UnrepeatedIs(queues, RoomChange(room, None, None, unread));
    }
  }

  lemma UpdateTells(
    queues: map<string, seq<RoomChange>>, room: string, known: bool, unread: Option<int>, update: seq<Ephemeral>,
    delta: Option<Markers>, sends: seq<RoomChange>)
    requires var count := CountChange(room, unread);
             sends == Unrepeated(queues, count) +
               if known then Unrepeated(QueuedIfNew(queues, count), EphemeralChange(room, TypingIn(update), delta))
               else []
    ensures TellsUpdate(queues, room, known, unread, update, delta, sends)
  {
    var typing := TypingIn(update);
    TypingInIs(update);
    if unread.Some? {
      UnrepeatedIs(queues, RoomChange(room, None, None, unread));
    }
    if typing.Some? {
      var k := LastTyping(update);
    }
    if typing.Some? || delta.Some? {
      SecondSend(queues, room, unread, typing, delta);
    }
    assert forall k :: IsLastTyping(update, k) ==> typing == Some(update[k].users);
  }

  lemma {:induction false} LastTyping(update: seq<Ephemeral>) returns (k: nat)
    requires TypingIn(update).Some?
    ensures IsLastTyping(update, k)
  {
    if Last(update).Typing? {
      k := |update| - 1;
    } else {
      k := LastTyping(Front(update));
      assert forall j :: 0 <= j < |update| - 1 ==> Front(update)[j] == update[j];
    }
  }

  // ---- Any run of the executor ----

  /** What happens to the executor; other tasks may also run between two of its actions. */
  datatype Operation =
    | JoinedRoomUpdate(room: string, known: bool, unread: Option<int>, update: seq<Ephemeral>)
    | QueuedRoomChanges(room: string)
    | OtherTasks

  /**
   * Over any run the queues stay the newest changes since their replays, neighbours different, and every change
   * that carried read markers has been sent.
   */
  method Serve(executor: EventExecutor, ops: seq<Operation>) returns (ghost deltas: seq<RoomChange>)
    requires executor.Valid()
    modifies executor, executor.cache
    ensures executor.Valid()
    ensures AllRaised(old(executor.cache.rooms), executor.cache.rooms)
    ensures old(executor.sent) <= executor.sent
    ensures forall d :: d in deltas ==> d in executor.sent[|old(executor.sent)|..]
  {
    deltas := [];
    AllRaisedRefl(executor.cache.rooms);
    for k := 0 to |ops|
      invariant executor.Valid()
      invariant AllRaised(old(executor.cache.rooms), executor.cache.rooms)
      invariant old(executor.sent) <= executor.sent
      invariant forall d :: d in deltas ==> d in executor.sent[|old(executor.sent)|..]
    {
      ghost var was, sent := executor.cache.rooms, executor.sent;
      ghost var change := ServeOne(executor, ops[k]);
      AllRaisedTrans(old(executor.cache.rooms), was, executor.cache.rooms);
      var from := |old(executor.sent)|;
      assert executor.sent[from..] == sent[from..] + executor.sent[|sent|..];
      deltas := deltas + if change.Some? then [change.value] else [];
    }
  }

  method ServeOne(executor: EventExecutor, op: Operation) returns (ghost change: Option<RoomChange>)
    requires executor.Valid()
    modifies executor, executor.cache
    ensures executor.Valid()
    ensures AllRaised(old(executor.cache.rooms), executor.cache.rooms)
    ensures old(executor.sent) <= executor.sent
    ensures change.Some? ==> change.value.readMarker.Some? && change.value in executor.sent[|old(executor.sent)|..]
  {
    change := None;
    ghost var sent := executor.sent;
    match op
    case JoinedRoomUpdate(room, known, unread, update) =>
      ghost var delta := executor.ExecJoinedRoomUpdate(room, known, unread, update);
      if delta.Some? {
        change := Some(RoomChange(room, TypingIn(update), delta, None));
      }
    case QueuedRoomChanges(room) =>
      AllRaisedRefl(executor.cache.rooms);
      executor.ExecQueuedRoomChanges(room);
    case OtherTasks =>
      ghost var tracked, rooms := executor.tracked, executor.cache.rooms;
      executor.cache.OtherTasks();
      StillCached(tracked, rooms, executor.cache.rooms);
  }
}
