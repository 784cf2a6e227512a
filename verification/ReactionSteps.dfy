/**
 * The lock-level steps of the reaction index against the cached room: an operation that no other task interrupts
 * does what the room's method does.
 */
module ReactionSteps {
  import opened Collections
  import opened Timeline
  import opened MemoryCache
  import opened RoomCache
  import I = ReactionIndex

  // ---- An operation on its own ----

  /** No lock is taken and the task is free. */
  predicate Quiet(s: I.State, t: I.Task) {
    s.messagesLock.None? && s.indexLock.None? && I.PcOf(s, t).Idle?
  }

  /** The task proceeds until its operation is done, at most `n` times. */
  function Finish(s: I.State, t: I.Task, n: nat): I.State
    decreases n
  {
    if n == 0 || I.PcOf(s, t).Idle? then s else Finish(I.Apply(s, t, I.Proceed), t, n - 1)
  }

  /** The locks are those the task holds itself. */
  predicate Alone(s: I.State, t: I.Task) {
    && s.messagesLock == (if I.HoldsMessages(I.PcOf(s, t)) then Some(t) else None)
    && s.indexLock == (if I.HoldsIndex(I.PcOf(s, t)) then Some(t) else None)
  }

  /** So nothing keeps a task that no other interrupts from finishing. */
  lemma ProceedsAlone(s: I.State, t: I.Task, a: I.Action)
    requires Alone(s, t)
    ensures I.LocksFree(s, t, I.Target(s, t, a)) && Alone(I.Apply(s, t, a), t)
  {
    var s' := I.Apply(s, t, a);
    assert s'.pcs == s.pcs[t := I.Target(s, t, a)];
  }

  function Cached(s: I.State, t: I.Task, m: I.Id, r: I.Id): I.State {
    Finish(I.Apply(s, t, I.StartCaching(m, r)), t, 2)
  }

  function Removed(s: I.State, t: I.Task, r: I.Id): I.State {
    Finish(I.Apply(s, t, I.StartRemoving(r)), t, 7)
  }

  /** Before the messages lock is taken the caches are as they were; with it the reaction is looked for. */
  lemma LookupSteps(s: I.State, t: I.Task, r: I.Id) returns (c: I.State)
    requires Quiet(s, t) && r in s.index
    ensures Removed(s, t, r) == Finish(c, t, 4)
    ensures I.PcOf(c, t) == I.Checking(r, s.index[r]) && c.reactions == s.reactions && c.index == s.index
    ensures c.handed == s.handed
  {
    var s1 := I.Apply(s, t, I.StartRemoving(r));
    var s2 := I.Apply(s1, t, I.Proceed);
    var s3 := I.Apply(s2, t, I.Proceed);
    c := I.Apply(s3, t, I.Proceed);
    assert Finish(s1, t, 7) == Finish(s2, t, 6) == Finish(s3, t, 5) == Finish(c, t, 4);
  }

  lemma RemovalSteps(c: I.State, t: I.Task, r: I.Id, m: I.Id)
    requires I.PcOf(c, t) == I.Checking(r, m) && I.Holds(c, m, r)
    ensures var d := Finish(c, t, 4);
      && d.reactions == c.reactions[m := I.ReactionsOf(c, m) - {r}] && d.index == c.index - {r}
      && d.handed == c.handed + [I.ReactionsOf(c, m)[r]] && I.PcOf(d, t).Idle?
  {
    var s1 := I.Apply(c, t, I.Proceed);
    assert Finish(c, t, 4) == Finish(s1, t, 3);
    CleanupSteps(s1, t, r, I.ReactionsOf(c, m)[r]);
  }

  lemma CleanupSteps(c: I.State, t: I.Task, r: I.Id, stamp: nat)
    requires I.PcOf(c, t) == I.Removed(r, stamp)
    ensures var d := Finish(c, t, 3);
      d.reactions == c.reactions && d.index == c.index - {r} && d.handed == c.handed + [stamp] && I.PcOf(d, t).Idle?
  {
    var s1 := I.Apply(c, t, I.Proceed);
    var s2 := I.Apply(s1, t, I.Proceed);
    var s3 := I.Apply(s2, t, I.Proceed);
    assert Finish(c, t, 3) == Finish(s1, t, 2) == Finish(s2, t, 1) == s3;
  }

  /** An extraction of these reactions, which it takes out at once, and their entries one by one. */
  function Extracted(s: I.State, t: I.Task, m: I.Id, todo: seq<I.Id>): I.State {
    Finish(I.Apply(s, t, I.StartExtracting(m, todo)), t, 2 * |todo| + 1)
  }

  lemma {:induction false} ExtractingSteps(c: I.State, t: I.Task, todo: seq<I.Id>, first: Option<nat>)
    requires I.PcOf(c, t) == I.Extracted(todo, first)
    ensures var d := Finish(c, t, 2 * |todo| + 1);
      && d.reactions == c.reactions && d.index == c.index - Elements(todo) && I.PcOf(d, t).Idle?
      && d.handed == c.handed + if first.Some? then [first.value] else []
    decreases |todo|
  {
    var s1 := I.Apply(c, t, I.Proceed);
    if todo == [] {
      assert Finish(c, t, 1) == s1;
    } else {
      var s2 := I.Apply(s1, t, I.Proceed);
      assert Finish(c, t, 2 * |todo| + 1) == Finish(s1, t, 2 * |todo|) == Finish(s2, t, 2 * |todo[1..]| + 1);
      ExtractingSteps(s2, t, todo[1..], first);
      assert Elements(todo) == {todo[0]} + Elements(todo[1..]);
    }
  }

  lemma NothingToRemove(s: I.State, t: I.Task, r: I.Id)
    requires Quiet(s, t) && r !in s.index
    ensures var d := Removed(s, t, r);
      d.reactions == s.reactions && d.index == s.index && d.handed == s.handed && I.PcOf(d, t).Idle?
  {
    var s1 := I.Apply(s, t, I.StartRemoving(r));
    var s2 := I.Apply(s1, t, I.Proceed);
    var s3 := I.Apply(s2, t, I.Proceed);
    assert Finish(s1, t, 7) == Finish(s2, t, 6) == Finish(s3, t, 5) == s3;
  }

  lemma CachingSteps(s: I.State, t: I.Task, m: I.Id, r: I.Id)
    requires Quiet(s, t)
    ensures var d := Cached(s, t, m, r);
      && d.reactions == s.reactions[m := I.ReactionsOf(s, m)[r := s.next]] && d.index == s.index[r := m]
      && d.handed == s.handed && I.PcOf(d, t).Idle?
  {
    var s1 := I.Apply(s, t, I.StartCaching(m, r));
    var s2 := I.Apply(s1, t, I.Proceed);
    var s3 := I.Apply(s2, t, I.Proceed);
    assert Finish(s1, t, 2) == Finish(s2, t, 1) == s3;
  }

  // ---- The same on the room ----

  /** The state holds the reactions and the index of the room. */
  ghost predicate Depicts(s: I.State, messages: map<string, CachedMessage>, index: map<string, string>) {
    s.index == index && forall m :: I.ReactionsOf(s, m).Keys == EntryOf(messages, m).reactions.Keys
  }

  /** A message's cached reactions are named by the annotations of it. */
  lemma KeyIffAnnotation(messages: map<string, CachedMessage>, seen: seq<Event>, m: string, r: string)
    requires AllMirror(messages, seen)
    ensures r in EntryOf(messages, m).reactions <==> exists e :: e in Annotations(seen, m) && e.id == r
  {
    assert Mirrors(EntryOf(messages, m), RelationsOf(seen, m));
    assert ReactionsMirror(EntryOf(messages, m).reactions, Annotations(seen, m));
  }

  /** An id is indexed exactly if a message holds it, and then for that message. */
  lemma IndexedIff(
    messages: map<string, CachedMessage>, index: map<string, string>, seen: seq<Event>, m: string, r: string)
    requires AllMirror(messages, seen) && IndexMirrors(index, seen) && RelationIdsUnique(seen)
    ensures r in EntryOf(messages, m).reactions <==> r in index && index[r] == m
  {
    KeyIffAnnotation(messages, seen, m, r);
    if r in index {
      var e := Locate(messages, index, seen, r);
    }
  }

  /** The annotations dropped are those with one of the ids. */
  ghost predicate DropsIds(seen: seq<Event>, dropped: set<Event>, ids: set<string>) {
    dropped == set e | e in seen && e.body.Annotation? && e.id in ids
  }

  lemma SameAfterRemoval(seen: seq<Event>, dropped: set<Event>, m: string, ids: set<string>, q: string)
    requires DropsIds(seen, dropped, ids)
    ensures (exists e :: e in Annotations(Without(seen, dropped), m) && e.id == q) <==>
            q !in ids && exists e :: e in Annotations(seen, m) && e.id == q
  {
    if e :| e in Annotations(seen, m) && e.id == q && q !in ids {
      assert e in Annotations(Without(seen, dropped), m);
    }
  }

  lemma IndexAfterRemoval(
    before: map<string, string>, after: map<string, string>, seen: seq<Event>, dropped: set<Event>, ids: set<string>)
    requires IndexMirrors(before, seen) && RelationIdsUnique(seen) && DropsIds(seen, dropped, ids)
    requires IndexMirrors(after, Without(seen, dropped))
    ensures after == before - ids
  {
    forall q
      ensures q in after <==> q in before && q !in ids
      ensures q in after && q in before ==> after[q] == before[q]
    {
      if q in before && q !in ids {
        var e :| e in seen && e.body.Annotation? && e.id == q;
        assert e in Without(seen, dropped);
      }
      if q in after {
        var e :| e in Without(seen, dropped) && e.body.Annotation? && e.id == q;
        assert e in seen;
      }
    }
  }

  lemma RemovedFromRoom(
    before: map<string, CachedMessage>, after: map<string, CachedMessage>, seen: seq<Event>, dropped: set<Event>,
    ids: set<string>)
    requires AllMirror(before, seen) && AllMirror(after, Without(seen, dropped)) && DropsIds(seen, dropped, ids)
    ensures forall m :: EntryOf(after, m).reactions.Keys == EntryOf(before, m).reactions.Keys - ids
  {
    forall m, q
      ensures q in EntryOf(after, m).reactions <==> q in EntryOf(before, m).reactions && q !in ids
    {
      KeyIffAnnotation(before, seen, m, q);
      KeyIffAnnotation(after, Without(seen, dropped), m, q);
      SameAfterRemoval(seen, dropped, m, ids, q);
    }
  }

  /** Where an index that agrees with the reactions points, there and only there the reaction is. */
  lemma RemovedInState(s: I.State, t: I.Task, r: I.Id)
    requires Quiet(s, t) && forall m :: I.Holds(s, m, r) <==> r in s.index && s.index[r] == m
    ensures var d := Removed(s, t, r);
      && d.index == s.index - {r} && (d.handed != s.handed <==> r in s.index)
      && forall m :: I.ReactionsOf(d, m).Keys == I.ReactionsOf(s, m).Keys - {r}
  {
    if r in s.index {
      var home := s.index[r];
      assert I.Holds(s, home, r);
      var c := LookupSteps(s, t, r);
      assert I.ReactionsOf(c, home) == I.ReactionsOf(s, home);
      RemovalSteps(c, t, r, home);
      OthersHoldNot(s, Removed(s, t, r), r, home);
    } else {
      NothingToRemove(s, t, r);
      forall m
        ensures I.ReactionsOf(Removed(s, t, r), m).Keys == I.ReactionsOf(s, m).Keys - {r}
      {
        assert !I.Holds(s, m, r);
      }
    }
  }

  lemma OthersHoldNot(s: I.State, d: I.State, r: I.Id, home: I.Id)
    requires forall m :: I.Holds(s, m, r) ==> m == home
    requires d.reactions == s.reactions[home := I.ReactionsOf(s, home) - {r}]
    ensures forall m :: I.ReactionsOf(d, m).Keys == I.ReactionsOf(s, m).Keys - {r}
  {
    forall m
      ensures I.ReactionsOf(d, m).Keys == I.ReactionsOf(s, m).Keys - {r}
    {
      if m != home {
        assert !I.Holds(s, m, r);
      }
    }
  }

  lemma HeldAsIndexed(
    s: I.State, messages: map<string, CachedMessage>, index: map<string, string>, seen: seq<Event>, r: string)
    requires Depicts(s, messages, index)
    requires AllMirror(messages, seen) && IndexMirrors(index, seen) && RelationIdsUnique(seen)
    ensures forall m :: I.Holds(s, m, r) <==> r in s.index && s.index[r] == m
  {
    forall m
      ensures I.Holds(s, m, r) <==> r in s.index && s.index[r] == m
    {
      assert I.ReactionsOf(s, m).Keys == EntryOf(messages, m).reactions.Keys;
      IndexedIff(messages, index, seen, m, r);
    }
  }

  lemma FoundIff(index: map<string, string>, seen: seq<Event>, dropped: set<Event>, r: string)
    requires IndexMirrors(index, seen) && dropped == set e | e in seen && e.body.Annotation? && e.id == r
    ensures r in index <==> dropped != {}
  {
    if r in index {
      var e :| e in seen && e.body.Annotation? && e.id == r;
      assert e in dropped;
    }
  }

  /** Removing by id, without interruption, is what the room's method does; a stamp is handed out iff it finds one. */
  method RemoveInSteps(room: CachedRoom, reactionId: string, ghost s: I.State, ghost t: I.Task)
    returns (r: Option<ReactionMetadata>)
    requires room.Valid() && Quiet(s, t) && Depicts(s, room.messages, room.reactionIdToMessage)
    modifies room
    ensures room.Valid()
    ensures Depicts(Removed(s, t, reactionId), room.messages, room.reactionIdToMessage)
    ensures r.Some? <==> Removed(s, t, reactionId).handed != s.handed
  {
    ghost var messages, index, seen := room.messages, room.reactionIdToMessage, room.seen;
    HeldAsIndexed(s, messages, index, seen, reactionId);
    RemovedInState(s, t, reactionId);
    ghost var dropped;
    r, dropped := room.RemoveReactionById(reactionId);
    FoundIff(index, seen, dropped, reactionId);
    assert DropsIds(seen, dropped, {reactionId});
    IndexAfterRemoval(index, room.reactionIdToMessage, seen, dropped, {reactionId});
    RemovedFromRoom(messages, room.messages, seen, dropped, {reactionId});
  }

  /** The ids of these events. */
  function IdsOf(dropped: set<Event>): set<string> {
    set e | e in dropped :: e.id
  }

  lemma {:induction false} SomeListing(ids: set<string>) returns (order: seq<string>)
    ensures Lists(order, ids)
    decreases |ids|
  {
    if ids == {} {
      order := [];
    } else {
      var id :| id in ids;
      order := SomeListing(ids - {id});
      order := [id] + order;
      assert forall x :: x in order <==> x in ids;
    }
  }

  /** With the id to start with first. */
  lemma ListingFrom(ids: set<string>, first: string) returns (order: seq<string>)
    requires first in ids
    ensures Lists(order, ids) && order[0] == first
  {
    var rest := SomeListing(ids - {first});
    order := [first] + rest;
    assert forall x :: x in order <==> x in ids;
  }

  lemma EmojiDropsIds(seen: seq<Event>, m: string, user: string, emoji: string)
    requires RelationIdsUnique(seen)
    ensures var dropped := AnnotationsBy(seen, m, user, emoji); DropsIds(seen, dropped, IdsOf(dropped))
  {
    var dropped := AnnotationsBy(seen, m, user, emoji);
    forall e | e in seen && e.body.Annotation? && e.id in IdsOf(dropped)
      ensures e in dropped
    {
      var f :| f in dropped && f.id == e.id;
      assert !Clash(e, f);
    }
  }

  /** The dropped reactions are held by their message, and by no other. */
  lemma HeldAt(
    s: I.State, messages: map<string, CachedMessage>, index: map<string, string>, seen: seq<Event>, m: string,
    user: string, emoji: string)
    requires Depicts(s, messages, index)
    requires AllMirror(messages, seen) && IndexMirrors(index, seen) && RelationIdsUnique(seen)
    ensures forall r, q :: r in IdsOf(AnnotationsBy(seen, m, user, emoji)) ==> (I.Holds(s, q, r) <==> q == m)
  {
    forall r, q | r in IdsOf(AnnotationsBy(seen, m, user, emoji))
      ensures I.Holds(s, q, r) <==> q == m
    {
      var e :| e in AnnotationsBy(seen, m, user, emoji) && e.id == r;
      HeldAsIndexed(s, messages, index, seen, r);
      assert index[r] == m;
    }
  }

  lemma ExtractedInState(s: I.State, t: I.Task, m: I.Id, todo: seq<I.Id>)
    requires Quiet(s, t) && forall r, q :: r in todo ==> (I.Holds(s, q, r) <==> q == m)
    ensures var d := Extracted(s, t, m, todo);
      && d.index == s.index - Elements(todo)
      && d.handed == s.handed + (if todo == [] then [] else [I.ReactionsOf(s, m)[todo[0]]])
      && forall q :: I.ReactionsOf(d, q).Keys == I.ReactionsOf(s, q).Keys - Elements(todo)
  {
    var c := I.Apply(s, t, I.StartExtracting(m, todo));
    assert todo != [] ==> I.Holds(s, m, todo[0]);
    ExtractingSteps(c, t, todo, if todo == [] then None else Some(I.ReactionsOf(s, m)[todo[0]]));
    forall q
      ensures I.ReactionsOf(c, q).Keys == I.ReactionsOf(s, q).Keys - Elements(todo)
    {
      assert q != m ==> forall r :: r in todo ==> !I.Holds(s, q, r);
    }
  }

  /**
   * Removing by emoji, without interruption, is what the room's method does: the reactions of the user with the emoji
   * are extracted, and the stamp handed out is that of the one returned.
   */
  method ExtractInSteps(
    room: CachedRoom, messageId: string, user: string, emoji: string, ghost s: I.State, ghost t: I.Task)
    returns (r: Option<ReactionMetadata>, ghost todo: seq<I.Id>)
    requires room.Valid() && Quiet(s, t) && Depicts(s, room.messages, room.reactionIdToMessage)
    modifies room
    ensures room.Valid()
    ensures Lists(todo, IdsOf(AnnotationsBy(old(room.seen), messageId, user, emoji)))
    ensures forall id :: id in todo ==> I.Holds(s, messageId, id)
    ensures Depicts(Extracted(s, t, messageId, todo), room.messages, room.reactionIdToMessage)
    ensures (r.None? <==> todo == []) && (r.Some? ==> r.value.reactionId == todo[0])
    ensures todo != [] ==> I.Holds(s, messageId, todo[0])
    ensures Extracted(s, t, messageId, todo).handed ==
            s.handed + if todo == [] then [] else [I.ReactionsOf(s, messageId)[todo[0]]]
  {
    ghost var messages, index, seen := room.messages, room.reactionIdToMessage, room.seen;
    HeldAt(s, messages, index, seen, messageId, user, emoji);
    EmojiDropsIds(seen, messageId, user, emoji);
    ghost var dropped, first;
    r, dropped, first := room.RemoveReactionByEmoji(messageId, user, emoji);
    if r.None? {
      todo := [];
    } else {
      todo := ListingFrom(IdsOf(dropped), first.value.id);
    }
    assert Elements(todo) == IdsOf(dropped);
    ExtractedInState(s, t, messageId, todo);
    IndexAfterRemoval(index, room.reactionIdToMessage, seen, dropped, IdsOf(dropped));
    RemovedFromRoom(messages, room.messages, seen, dropped, IdsOf(dropped));
  }

  lemma CachedInRoom(before: map<string, CachedMessage>, after: map<string, CachedMessage>, seen: seq<Event>, e: Event)
    requires AllMirror(before, seen) && AllMirror(after, seen + [e]) && e.body.Annotation?
    ensures forall m :: EntryOf(after, m).reactions.Keys ==
                        EntryOf(before, m).reactions.Keys + if m == e.body.target then {e.id} else {}
  {
    forall m, q
      ensures q in EntryOf(after, m).reactions <==>
              q in EntryOf(before, m).reactions || (m == e.body.target && q == e.id)
    {
      KeyIffAnnotation(before, seen, m, q);
      KeyIffAnnotation(after, seen + [e], m, q);
      SameAfterCaching(seen, e, m, q);
    }
  }

  lemma CachedInState(s: I.State, t: I.Task, m0: I.Id, r: I.Id)
    requires Quiet(s, t)
    ensures var d := Cached(s, t, m0, r);
      && d.index == s.index[r := m0]
      && forall m :: I.ReactionsOf(d, m).Keys == I.ReactionsOf(s, m).Keys + if m == m0 then {r} else {}
  {
    CachingSteps(s, t, m0, r);
  }

  /** Caching a reaction, without interruption, is what the room's method does. */
  method CacheInSteps(room: CachedRoom, e: Event, ghost s: I.State, ghost t: I.Task)
    requires room.Valid() && RelationIdsUnique(room.seen + [e]) && e.body.Annotation?
    requires Quiet(s, t) && Depicts(s, room.messages, room.reactionIdToMessage)
    modifies room
    ensures room.Valid()
    ensures Depicts(Cached(s, t, e.body.target, e.id), room.messages, room.reactionIdToMessage)
  {
    ghost var messages, index, seen := room.messages, room.reactionIdToMessage, room.seen;
    room.CacheReaction(e);
    CachedInState(s, t, e.body.target, e.id);
    CachedInRoom(messages, room.messages, seen, e);
    IndexAfterCaching(index, room.reactionIdToMessage, seen, e);
  }

  lemma SameAfterCaching(seen: seq<Event>, e: Event, m: string, q: string)
    requires e.body.Annotation?
    ensures (exists f :: f in Annotations(seen + [e], m) && f.id == q) <==>
            (m == e.body.target && q == e.id) || exists f :: f in Annotations(seen, m) && f.id == q
  {
    assert e in Annotations(seen + [e], e.body.target);
    if f :| f in Annotations(seen, m) && f.id == q {
      assert f in Annotations(seen + [e], m);
    }
  }

  lemma IndexAfterCaching(before: map<string, string>, after: map<string, string>, seen: seq<Event>, e: Event)
    requires IndexMirrors(before, seen) && e.body.Annotation? && IndexMirrors(after, seen + [e])
    requires RelationIdsUnique(seen + [e])
    ensures after == before[e.id := e.body.target]
  {
    assert e in seen + [e];
    forall q
      ensures q in after <==> q in before || q == e.id
      ensures q in after && q in before && q != e.id ==> after[q] == before[q]
    {
      if q in before {
        var f :| f in seen && f.body.Annotation? && f.id == q;
        assert f in seen + [e];
      }
      if q in after {
        var f :| f in seen + [e] && f.body.Annotation? && f.id == q;
        assert f == e || f in seen;
      }
    }
  }
}
