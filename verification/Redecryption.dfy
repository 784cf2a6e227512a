/** Retrying the decryption of events that could not be decrypted before (src/memory_cache.rs). */
module Redecryption {
  import opened Collections
  import opened Polls
  import opened Timeline
  import opened MemoryCache
  import opened RoomCache

  /** What decrypting a cached event gives with the keys at hand. */
  datatype Decryption = StillEncrypted | WithoutId | Decrypted(event: Event)

  datatype AppEvent =
    | MessageChanged(roomId: string, messageId: string, content: Content)
    | MessageRemoved(roomId: string, messageId: string)
    | ReactionCreated(reaction: ReactionMetadata)

  type Keys = string -> Decryption

  /** Decryption gives the event with the same id, and not another encrypted one. */
  ghost predicate Lawful(keys: Keys) {
    forall id :: keys(id).Decrypted? ==>
      var e := keys(id).event;
      e.id == id && e.wasEncrypted && !e.body.Undecryptable?
  }

  function Selected(encrypted: map<string, Event>, selection: Option<set<string>>): set<string> {
    set id | id in encrypted && (selection.None? || id in selection.value)
  }

  /** The decrypted events among the ids tried, in the order tried. */
  function DecryptedIn(keys: Keys, order: seq<string>): seq<Event> {
    if order == [] then [] else
      DecryptedIn(keys, Front(order)) + if keys(Last(order)).Decrypted? then [keys(Last(order)).event] else []
  }

  /** The ids that leave the encrypted set: those that decrypt to an event that can be deserialised. */
  function Resolved(keys: Keys, ids: set<string>): set<string> {
    set id | id in ids && keys(id).Decrypted? && !keys(id).event.body.Malformed?
  }

  predicate BreaksPass(room: string, keys: Keys, id: string) {
    keys(id).Decrypted? && Produce(room, keys(id).event).Breaks?
  }

  /** The one resolution of a decrypted event, given the events seen before it. */
  ghost predicate Resolution(room: string, seen: seq<Event>, e: Event, sends: seq<AppEvent>) {
    match Produce(room, e)
    case Produces(base) =>
      exists m :: Rendered(seen, base, m)
        && sends == [if m.content.Some? then MessageChanged(room, e.id, m.content.value)
                     else MessageRemoved(room, e.id)]
    case Silent =>
      sends == [MessageRemoved(room, e.id)] +
               if e.body.Annotation? then [ReactionCreated(MetadataOf(room, e))] else []
    case Breaks => false
  }

  /** What a pass over `order` sends: one resolution per decrypted event, nothing for the rest. */
  ghost predicate PassLog(room: string, seen: seq<Event>, keys: Keys, order: seq<string>, log: seq<AppEvent>) {
    if order == [] then log == [] else
      exists n :: 0 <= n <= |log| && PassLog(room, seen, keys, Front(order), log[..n])
        && ResolvedStep(room, seen + DecryptedIn(keys, Front(order)), keys(Last(order)), log[n..])
  }

  ghost predicate ResolvedStep(room: string, seen: seq<Event>, d: Decryption, sends: seq<AppEvent>) {
    match d
    case Decrypted(e) => Resolution(room, seen, e, sends)
    case _ => sends == []
  }

  lemma PassLogNext(
    room: string, seen: seq<Event>, keys: Keys, order: seq<string>, log: seq<AppEvent>, id: string,
    sends: seq<AppEvent>)
    requires PassLog(room, seen, keys, order, log)
    requires ResolvedStep(room, seen + DecryptedIn(keys, order), keys(id), sends)
    ensures PassLog(room, seen, keys, order + [id], log + sends)
  {
    assert Front(order + [id]) == order && Last(order + [id]) == id;
    assert (log + sends)[..|log|] == log && (log + sends)[|log|..] == sends;
  }

  /** A pass is silent exactly when none of the events tried decrypts. */
  lemma {:induction false} SilentPassIff(
    room: string, seen: seq<Event>, keys: Keys, order: seq<string>, log: seq<AppEvent>)
    requires PassLog(room, seen, keys, order, log)
    ensures log == [] <==> forall id :: id in order ==> !keys(id).Decrypted?
  {
    if order == [] {
    } else {
      var front, id := Front(order), Last(order);
      assert order == front + [id];
      var n := LastResolution(room, seen, keys, order, log);
      SilentPassIff(room, seen, keys, front, log[..n]);
    }
  }

  /** Where the sends for the last event begin. */
  lemma LastResolution(room: string, seen: seq<Event>, keys: Keys, order: seq<string>, log: seq<AppEvent>)
    returns (n: nat)
    requires order != [] && PassLog(room, seen, keys, order, log)
    ensures n <= |log| && PassLog(room, seen, keys, Front(order), log[..n])
    ensures ResolvedStep(room, seen + DecryptedIn(keys, Front(order)), keys(Last(order)), log[n..])
    ensures n == |log| <==> !keys(Last(order)).Decrypted?
  {
    n :| 0 <= n <= |log| && PassLog(room, seen, keys, Front(order), log[..n])
         && ResolvedStep(room, seen + DecryptedIn(keys, Front(order)), keys(Last(order)), log[n..]);
    assert log[n..] == [] <==> !keys(Last(order)).Decrypted?;
  }

  /** What is sent for the action of a decrypted event; without an action the encrypted message is removed. */
  function SendsFor(room: string, id: string, action: Option<Action>): seq<AppEvent> {
    match action
    case None => [MessageRemoved(room, id)]
    case Some(MessageAction(m)) =>
      [if m.content.Some? then MessageChanged(room, m.messageId, m.content.value)
       else MessageRemoved(room, m.messageId)]
    case Some(ReactionAction(reaction)) => [MessageRemoved(room, reaction.reactionId), ReactionCreated(reaction)]
  }

  lemma SendsResolve(room: string, seen: seq<Event>, e: Event, r: Result<Option<Action>, CacheError>)
    requires Answers(room, seen, e, r)
    ensures r.Err? <==> Produce(room, e).Breaks?
    ensures r.Ok? ==> Resolution(room, seen, e, SendsFor(room, e.id, r.value))
  {
    if Produce(room, e).Produces? {
      var m := r.value.value.message;
      assert Rendered(seen, Produce(room, e).base, m) && m.messageId == e.id;
    }
  }

  lemma OneDecrypted(keys: Keys, id: string)
    ensures DecryptedIn(keys, [id]) == if keys(id).Decrypted? then [keys(id).event] else []
    ensures Resolved(keys, {id}) == if keys(id).Decrypted? && !keys(id).event.body.Malformed? then {id} else {}
  {
    assert Front([id]) == [] && Last([id]) == id;
  }

  /** One event: nothing happens unless it decrypts. */
  method RetryEvent(room: CachedRoom, id: string, keys: Keys) returns (r: Result<seq<AppEvent>, CacheError>)
    requires room.Valid() && Lawful(keys)
    requires keys(id).Decrypted? ==> RelationIdsUnique(room.seen + [keys(id).event])
    modifies room
    ensures room.seen == old(room.seen) + DecryptedIn(keys, [id])
    ensures room.encryptedEvents == old(room.encryptedEvents) - Resolved(keys, {id})
    ensures r.Err? <==> BreaksPass(room.roomId, keys, id)
    ensures r.Ok? ==> ResolvedStep(room.roomId, old(room.seen), keys(id), r.value)
    ensures room.Valid()
  {
    OneDecrypted(keys, id);
    var decryption := keys(id);
    if !decryption.Decrypted? {
      assert room.seen + [] == room.seen;
      return Ok([]);
    }
    var e := decryption.event;
    ghost var was := room.seen;
    var action := room.ProcessTimelineEvent(e);
    SendsResolve(room.roomId, was, e, action);
    if action.Err? {
      return Err(action.error);
    }
    return Ok(SendsFor(room.roomId, id, action.value));
  }

  /** The state of a pass after the ids in `tried`. */
  ghost predicate PassState(
    room: CachedRoom, keys: Keys, seen: seq<Event>, encrypted: map<string, Event>, tried: seq<string>,
    log: seq<AppEvent>)
    reads room
  {
    && room.seen == seen + DecryptedIn(keys, tried)
    && room.encryptedEvents == encrypted - Resolved(keys, Elements(tried))
    && (forall id :: id in tried ==> !BreaksPass(room.roomId, keys, id))
    && PassLog(room.roomId, seen, keys, tried, log)
  }

  /** One turn of the pass: the state moves on, or the event breaks the pass and is lost. */
  method RetryNext(
    room: CachedRoom, id: string, keys: Keys, log: seq<AppEvent>,
    ghost seen: seq<Event>, ghost encrypted: map<string, Event>, ghost tried: seq<string>, ghost known: seq<Event>)
    returns (r: Result<seq<AppEvent>, CacheError>)
    requires room.Valid() && Lawful(keys) && RelationIdsUnique(known)
    requires PassState(room, keys, seen, encrypted, tried, log)
    requires forall e :: e in room.seen ==> e in known
    requires keys(id).Decrypted? ==> keys(id).event in known
    modifies room
    ensures forall e :: e in room.seen ==> e in known
    ensures r.Err? <==> BreaksPass(room.roomId, keys, id)
    ensures r.Ok? ==> PassState(room, keys, seen, encrypted, tried + [id], r.value)
    ensures room.encryptedEvents == encrypted - Resolved(keys, Elements(tried) + {id})
    ensures room.Valid()
  {
    OneDecrypted(keys, id);
    ResolvedMore(keys, encrypted, Elements(tried), id);
    DecryptedNext(keys, tried, id);
    assert Elements(tried + [id]) == Elements(tried) + {id};
    var sent := RetryEvent(room, id, keys);
    if sent.Err? {
      return Err(sent.error);
    }
    PassLogNext(room.roomId, seen, keys, tried, log, id, sent.value);
    return Ok(log + sent.value);
  }

  /**
   * A pass over the selected events in the hash map's order. It succeeds exactly when no selected event decrypts
   * to one that breaks the processing; otherwise it stops there, after `tried` with `order[|tried|]` lost.
   */
  method RetryDecryption(room: CachedRoom, selection: Option<set<string>>, keys: Keys, ghost known: seq<Event>)
    returns (r: Result<(), CacheError>, log: seq<AppEvent>, ghost order: seq<string>, ghost tried: seq<string>)
    requires room.Valid() && Lawful(keys) && RelationIdsUnique(known)
    requires forall e :: e in room.seen ==> e in known
    requires forall id :: id in room.encryptedEvents && keys(id).Decrypted? ==> keys(id).event in known
    modifies room
    ensures Lists(order, Selected(old(room.encryptedEvents), selection)) && tried <= order
    ensures PassLog(room.roomId, old(room.seen), keys, tried, log)
    ensures r.Ok? <==> forall id :: id in Selected(old(room.encryptedEvents), selection) ==>
      !BreaksPass(room.roomId, keys, id)
    ensures r.Ok? ==>
      tried == order
      && room.encryptedEvents ==
         old(room.encryptedEvents) - Resolved(keys, Selected(old(room.encryptedEvents), selection))
    ensures r.Err? ==>
      |tried| < |order| && BreaksPass(room.roomId, keys, order[|tried|])
      && room.encryptedEvents == old(room.encryptedEvents) - Resolved(keys, Elements(tried) + {order[|tried|]})
    ensures r.Ok? ==> room.seen == old(room.seen) + DecryptedIn(keys, order)
    ensures forall e :: e in room.seen ==> e in known
    ensures room.Valid()
  {
    ghost var encrypted, seen := room.encryptedEvents, room.seen;
    var ids := Iterate(Selected(room.encryptedEvents, selection));
    order, tried, log := ids, [], [];
    assert encrypted - Resolved(keys, Elements([])) == encrypted;
    for k := 0 to |ids|
      invariant tried == ids[..k] && room.Valid()
      invariant forall e :: e in room.seen ==> e in known
      invariant PassState(room, keys, seen, encrypted, tried, log)
    {
      assert ids[..k + 1] == tried + [ids[k]];
      assert ids[k] in ids;
      var sent := RetryNext(room, ids[k], keys, log, seen, encrypted, tried, known);
      if sent.Err? {
        r := Err(sent.error);
        return;
      }
      log := sent.value;
      tried := tried + [ids[k]];
    }
    assert ids[..|ids|] == ids;
    assert Elements(tried) == Selected(encrypted, selection);
    r := Ok(());
  }

  lemma ResolvedMore(keys: Keys, encrypted: map<string, Event>, ids: set<string>, id: string)
    ensures encrypted - Resolved(keys, ids) - Resolved(keys, {id}) == encrypted - Resolved(keys, ids + {id})
  {
    assert Resolved(keys, ids + {id}) == Resolved(keys, ids) + Resolved(keys, {id});
  }

  lemma DecryptedNext(keys: Keys, order: seq<string>, id: string)
    ensures DecryptedIn(keys, order + [id]) == DecryptedIn(keys, order) + DecryptedIn(keys, [id])
  {
    OneDecrypted(keys, id);
    assert Front(order + [id]) == order && Last(order + [id]) == id;
  }

  /** With unchanged keys, a pass after a successful one is silent unless some event decrypts to rubbish. */
  lemma SecondPassSilentIff(
    room: string, keys: Keys, encrypted: map<string, Event>, selection: Option<set<string>>,
    after: map<string, Event>, seen: seq<Event>, order: seq<string>, log: seq<AppEvent>)
    requires after == encrypted - Resolved(keys, Selected(encrypted, selection))
    requires Lists(order, Selected(after, selection)) && PassLog(room, seen, keys, order, log)
    ensures log == [] <==>
            forall id :: id in Selected(encrypted, selection) && keys(id).Decrypted? ==> !keys(id).event.body.Malformed?
  {
    SilentPassIff(room, seen, keys, order, log);
    assert forall id :: id in order <==>
      id in Selected(encrypted, selection) && id !in Resolved(keys, Selected(encrypted, selection));
  }

  // ---- What goes wrong ----

  /** Keys with which this event, and no other, decrypts. */
  function OnlyKeyFor(e: Event): Keys {
    (id: string) => if id == e.id then Decrypted(e) else StillEncrypted
  }

  lemma OnlyKeyLawful(e: Event)
    requires e.wasEncrypted && !e.body.Undecryptable?
    ensures Lawful(OnlyKeyFor(e))
  {
  }

  /** An event that decrypts to one that cannot be read is removed for the application on every pass over it. */
  method MalformedOnEveryPass(room: CachedRoom, e: Event)
    returns (first: seq<AppEvent>, second: seq<AppEvent>)
    requires room.Valid() && room.encryptedEvents.Keys == {e.id}
    requires e.wasEncrypted && e.body.Malformed?
    modifies room
    ensures first == second == [MessageRemoved(room.roomId, e.id)]
    ensures room.encryptedEvents == old(room.encryptedEvents)
    ensures room.Valid()
  {
    first := MalformedPass(room, e);
    second := MalformedPass(room, e);
  }

  method MalformedPass(room: CachedRoom, e: Event) returns (log: seq<AppEvent>)
    requires room.Valid() && room.encryptedEvents.Keys == {e.id}
    requires e.wasEncrypted && e.body.Malformed?
    modifies room
    ensures log == [MessageRemoved(room.roomId, e.id)]
    ensures room.encryptedEvents == old(room.encryptedEvents)
    ensures room.Valid()
  {
    OnlyKeyLawful(e);
    ghost var was := room.seen;
    UniqueIgnored(was, e);
    assert Selected(room.encryptedEvents, None) == {e.id};
    var r;
    ghost var order, tried;
    r, log, order, tried := RetryDecryption(room, None, OnlyKeyFor(e), was + [e]);
    assert Resolved(OnlyKeyFor(e), {e.id}) == {};
    OnlyOne(order, e.id);
    MalformedLog(room.roomId, was, e, log);
  }

  lemma MalformedLog(room: string, seen: seq<Event>, e: Event, log: seq<AppEvent>)
    requires e.body.Malformed? && PassLog(room, seen, OnlyKeyFor(e), [e.id], log)
    ensures log == [MessageRemoved(room, e.id)]
  {
    assert Front([e.id]) == [] && Last([e.id]) == e.id;
    var n := LastResolution(room, seen, OnlyKeyFor(e), [e.id], log);
    assert log == log[..n] + log[n..];
  }

  lemma OnlyOne(order: seq<string>, id: string)
    requires Lists(order, {id})
    ensures order == [id]
  {
    ListsSize(order, {id});
    assert order[0] in order;
  }

  /** A poll of unknown kind leaves the encrypted set although the application is told nothing. */
  method UnknownPollLost(room: CachedRoom, e: Event) returns (r: Result<(), CacheError>, log: seq<AppEvent>)
    requires room.Valid() && room.encryptedEvents.Keys == {e.id}
    requires e.wasEncrypted && e.body.NewPoll? && !Convertible(e.body.start)
    modifies room
    ensures r.Err? && log == [] && room.encryptedEvents == map[]
    ensures room.Valid()
  {
    OnlyKeyLawful(e);
    ghost var was := room.seen;
    UniqueIgnored(was, e);
    assert Selected(room.encryptedEvents, None) == {e.id};
    ghost var order, tried;
    r, log, order, tried := RetryDecryption(room, None, OnlyKeyFor(e), was + [e]);
    OnlyOne(order, e.id);
    assert BreaksPass(room.roomId, OnlyKeyFor(e), e.id);
    assert tried == [] && Elements(tried) + {order[0]} == {e.id};
    assert Resolved(OnlyKeyFor(e), {e.id}) == {e.id};
  }
}
