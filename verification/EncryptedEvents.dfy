/** Which events wait for their decryption, and that the next pass deals with each of them (src/memory_cache.rs). */
module EncryptedEvents {
  import opened Collections
  import opened Timeline
  import opened Replies
  import opened RoomCache
  import opened Redecryption

  // ---- What a pass sends ----

  /** The application is told what the decrypted event has become, given the events seen before it, and no more. */
  ghost predicate Told(room: string, seen: seq<Event>, e: Event, sends: seq<AppEvent>) {
    if IsMessage(e) then
      exists m :: Tells(room, seen, e, m)
        && sends == [if m.content.Some? then MessageChanged(room, e.id, m.content.value)
                     else MessageRemoved(room, e.id)]
    else if e.body.Annotation? then
      sends == [MessageRemoved(room, e.id),
                ReactionCreated(ReactionMetadata(e.id, e.sender, e.body.emoji, e.body.target, room))]
    else sends == [MessageRemoved(room, e.id)]
  }

  /** The event of which the application is told. */
  function About(sent: AppEvent): string {
    match sent
    case MessageChanged(_, messageId, _) => messageId
    case MessageRemoved(_, messageId) => messageId
    case ReactionCreated(reaction) => reaction.reactionId
  }

  lemma ResolutionTells(room: string, seen: seq<Event>, e: Event, sends: seq<AppEvent>)
    requires Resolution(room, seen, e, sends)
    ensures Told(room, seen, e, sends)
  {
    ProducesIff(room, e);
    if IsMessage(e) {
      var m :| Rendered(seen, Produce(room, e).base, m)
               && sends == [if m.content.Some? then MessageChanged(room, e.id, m.content.value)
                            else MessageRemoved(room, e.id)];
      MessageTells(room, seen, e, m);
    }
  }

  lemma StepAbout(room: string, seen: seq<Event>, keys: Keys, id: string, sends: seq<AppEvent>)
    requires Lawful(keys) && ResolvedStep(room, seen, keys(id), sends)
    ensures forall x :: x in sends ==> About(x) == id && keys(id).Decrypted?
  {
    if keys(id).Decrypted? {
      ResolutionTells(room, seen, keys(id).event, sends);
    }
  }

  /** A pass tells of nothing but events tried that decrypt. */
  lemma {:induction false} NothingElseTold(
    room: string, seen: seq<Event>, keys: Keys, order: seq<string>, log: seq<AppEvent>)
    requires Lawful(keys) && PassLog(room, seen, keys, order, log)
    ensures forall x :: x in log ==> About(x) in order && keys(About(x)).Decrypted?
  {
    if order != [] {
      var n := LastResolution(room, seen, keys, order, log);
      assert order == Front(order) + [Last(order)] && log == log[..n] + log[n..];
      NothingElseTold(room, seen, keys, Front(order), log[..n]);
      StepAbout(room, seen + DecryptedIn(keys, Front(order)), keys, Last(order), log[n..]);
    }
  }

  /** All that is told of `id` is `log[from..to]`. */
  predicate AllAbout(log: seq<AppEvent>, id: string, from: nat, to: nat) {
    from <= to <= |log| && forall i :: 0 <= i < |log| ==> (About(log[i]) == id <==> from <= i < to)
  }

  lemma AboutLast(log: seq<AppEvent>, n: nat, id: string)
    requires n <= |log|
    requires (forall x :: x in log[..n] ==> About(x) != id) && forall x :: x in log[n..] ==> About(x) == id
    ensures AllAbout(log, id, n, |log|)
  {
    assert forall i :: 0 <= i < n ==> log[i] in log[..n];
    assert forall i :: n <= i < |log| ==> log[i] in log[n..];
  }

  lemma AboutFront(log: seq<AppEvent>, n: nat, id: string, from: nat, to: nat)
    requires n <= |log| && AllAbout(log[..n], id, from, to) && forall x :: x in log[n..] ==> About(x) != id
    ensures AllAbout(log, id, from, to) && log[from..to] == log[..n][from..to]
  {
    assert forall i :: 0 <= i < n ==> log[i] == log[..n][i];
    assert forall i :: n <= i < |log| ==> log[i] in log[n..];
  }

  /** A pass tells once of every event tried that decrypts, as of one seen after those decrypted before it. */
  lemma {:induction false} PassTells(
    room: string, seen: seq<Event>, keys: Keys, order: seq<string>, log: seq<AppEvent>, k: nat)
    returns (from: nat, to: nat)
    requires Lawful(keys) && PassLog(room, seen, keys, order, log)
    requires k < |order| && keys(order[k]).Decrypted? && NoDuplicates(order)
    ensures AllAbout(log, order[k], from, to)
    ensures Told(room, seen + DecryptedIn(keys, order[..k]), keys(order[k]).event, log[from..to])
  {
    var front := Front(order);
    var n := LastResolution(room, seen, keys, order, log);
    StepAbout(room, seen + DecryptedIn(keys, front), keys, Last(order), log[n..]);
    if k == |order| - 1 {
      assert order[..k] == front && log[n..|log|] == log[n..];
      ResolutionTells(room, seen + DecryptedIn(keys, front), keys(order[k]).event, log[n..]);
      NothingElseTold(room, seen, keys, front, log[..n]);
      AboutLast(log, n, order[k]);
      from, to := n, |log|;
    } else {
      from, to := PassTells(room, seen, keys, front, log[..n], k);
      assert order[..k] == front[..k];
      AboutFront(log, n, order[k], from, to);
    }
  }

  /** The events a pass tries are those in the encrypted set that are selected, or all of them without a selection. */
  lemma SelectedIff(encrypted: map<string, Event>, selection: Option<set<string>>, order: seq<string>)
    requires Lists(order, Selected(encrypted, selection))
    ensures forall id :: id in order <==> id in encrypted && (selection.None? || id in selection.value)
  {
  }

  /** What a pass that succeeds leaves in the set. */
  lemma LeftIff(encrypted: map<string, Event>, selection: Option<set<string>>, keys: Keys, after: map<string, Event>)
    requires after == encrypted - Resolved(keys, Selected(encrypted, selection))
    ensures forall id :: id in after <==>
              id in encrypted && !((selection.None? || id in selection.value)
                                   && keys(id).Decrypted? && !keys(id).event.body.Malformed?)
  {
  }

  // ---- Which events wait ----

  /** Event `k` could not be decrypted, and none of that id that could be decrypted and read came later. */
  predicate Waits(events: seq<Event>, k: nat, id: string)
    requires k < |events|
  {
    && events[k].body.Undecryptable? && events[k].id == id
    && forall j :: k < j < |events| ==> !Decrypts(events[j], id)
  }

  predicate Decrypts(e: Event, id: string) {
    e.id == id && e.wasEncrypted && !e.body.Undecryptable? && !e.body.Malformed?
  }

  /** The set after some events: what waits among them, and what waited before and was not decrypted since. */
  ghost predicate WaitingSince(before: set<string>, events: seq<Event>, after: set<string>) {
    forall id :: id in after <==>
      || (exists k :: 0 <= k < |events| && Waits(events, k, id))
      || (id in before && forall j :: 0 <= j < |events| ==> !Decrypts(events[j], id))
  }

  lemma WaitingNext(before: set<string>, events: seq<Event>, was: map<string, Event>, e: Event)
    requires WaitingSince(before, events, was.Keys)
    ensures WaitingSince(before, events + [e], EncryptedAfter(was, e).Keys)
  {
    var all, after := events + [e], EncryptedAfter(was, e).Keys;
    forall id
      ensures id in after <==>
              || (exists k :: 0 <= k < |all| && Waits(all, k, id))
              || (id in before && forall j :: 0 <= j < |all| ==> !Decrypts(all[j], id))
    {
      WaitsNext(events, e, id);
      assert all[|events|] == e && forall j :: 0 <= j < |events| ==> all[j] == events[j];
    }
  }

  lemma WaitsNext(events: seq<Event>, e: Event, id: string)
    ensures var all := events + [e];
      (exists k :: 0 <= k < |all| && Waits(all, k, id)) <==>
      (e.body.Undecryptable? && e.id == id) ||
      (!Decrypts(e, id) && exists k :: 0 <= k < |events| && Waits(events, k, id))
  {
    var all, n := events + [e], |events|;
    if k :| 0 <= k < |all| && Waits(all, k, id) {
      if k < n {
        assert !Decrypts(all[n], id);
        assert forall j :: k < j < n ==> events[j] == all[j];
        assert Waits(events, k, id);
      }
    }
    if e.body.Undecryptable? && e.id == id {
      assert Waits(all, n, id);
    }
    if !Decrypts(e, id) {
      if k :| 0 <= k < n && Waits(events, k, id) {
        assert Waits(all, k, id);
      }
    }
  }

  predicate LastUndecryptable(events: seq<Event>, k: nat, id: string)
    requires k < |events|
  {
    && events[k].body.Undecryptable? && events[k].id == id
    && forall j :: k < j < |events| ==> !(events[j].body.Undecryptable? && events[j].id == id)
  }

  /** Of several undecryptable events with an id the last one is kept. */
  ghost predicate KeepsLast(before: map<string, Event>, events: seq<Event>, after: map<string, Event>) {
    forall id :: id in after ==>
      && (forall k :: 0 <= k < |events| && LastUndecryptable(events, k, id) ==> after[id] == events[k])
      && ((forall j :: 0 <= j < |events| ==> !(events[j].body.Undecryptable? && events[j].id == id)) ==>
            id in before && after[id] == before[id])
  }

  lemma KeepsLastNext(before: map<string, Event>, events: seq<Event>, was: map<string, Event>, e: Event)
    requires KeepsLast(before, events, was)
    ensures KeepsLast(before, events + [e], EncryptedAfter(was, e))
  {
    var all, after := events + [e], EncryptedAfter(was, e);
    assert all[|events|] == e && forall j :: 0 <= j < |events| ==> all[j] == events[j];
    forall id, k | id in after && 0 <= k < |all| && LastUndecryptable(all, k, id)
      ensures after[id] == all[k]
    {
      if k < |events| {
        assert LastUndecryptable(events, k, id);
      }
    }
  }

  /** Over any events: exactly the undecryptable ones wait that none that could be read followed. */
  method ProcessAll(room: CachedRoom, events: seq<Event>)
    requires room.Valid() && RelationIdsUnique(room.seen + events)
    modifies room
    ensures room.Valid() && room.seen == old(room.seen) + events
    ensures WaitingSince(old(room.encryptedEvents).Keys, events, room.encryptedEvents.Keys)
    ensures KeepsLast(old(room.encryptedEvents), events, room.encryptedEvents)
  {
    ghost var seen, before := room.seen, room.encryptedEvents;
    for k := 0 to |events|
      invariant room.Valid() && room.seen == seen + events[..k]
      invariant WaitingSince(before.Keys, events[..k], room.encryptedEvents.Keys)
      invariant KeepsLast(before, events[..k], room.encryptedEvents)
    {
      assert events[..k + 1] == events[..k] + [events[k]];
      assert seen + events[..k] + [events[k]] == seen + events[..k + 1];
      UniquePrefix(seen, events, k + 1);
      WaitingNext(before.Keys, events[..k], room.encryptedEvents, events[k]);
      KeepsLastNext(before, events[..k], room.encryptedEvents, events[k]);
      var _ := room.ProcessTimelineEvent(events[k]);
    }
    assert events[..|events|] == events;
  }

  lemma UniquePrefix(seen: seq<Event>, events: seq<Event>, n: nat)
    requires RelationIdsUnique(seen + events) && n <= |events|
    ensures RelationIdsUnique(seen + events[..n])
  {
    assert forall e :: e in seen + events[..n] ==> e in seen + events;
  }

  /**
   * An event that could not be decrypted, and then any events that do not decrypt it: if the keys of the next pass
   * over everything do, and the pass succeeds, the application is told once what it has become.
   */
  method ToldByNextPass(room: CachedRoom, e: Event, later: seq<Event>, keys: Keys, ghost known: seq<Event>)
    returns (r: Result<(), CacheError>, log: seq<AppEvent>, ghost before: seq<string>, ghost from: nat, ghost to: nat)
    requires room.Valid() && RelationIdsUnique(known) && e.body.Undecryptable?
    requires forall f :: f in room.seen + [e] + later ==> f in known
    requires forall j :: 0 <= j < |later| ==> !Decrypts(later[j], e.id)
    requires Lawful(keys) && forall id :: keys(id).Decrypted? ==> keys(id).event in known
    requires keys(e.id).Decrypted?
    modifies room
    ensures room.Valid()
    ensures r.Ok? ==> NoDuplicates(before) && e.id !in before && AllAbout(log, e.id, from, to)
    ensures r.Ok? ==> Told(room.roomId, old(room.seen) + ([e] + later) + DecryptedIn(keys, before), keys(e.id).event,
                           log[from..to])
  {
    ghost var seen := room.seen;
    assert seen + ([e] + later) == seen + [e] + later;
    UniqueAmong(known, seen + ([e] + later));
    ProcessAll(room, [e] + later);
    assert Waits([e] + later, 0, e.id);
    ghost var order, tried, encrypted, since := [], [], room.encryptedEvents, room.seen;
    assert e.id in encrypted;
    before, from, to := [], 0, 0;
    r, log, order, tried := RetryDecryption(room, None, keys, known);
    if r.Ok? {
      SelectedIff(encrypted, None, order);
      ghost var k :| 0 <= k < |order| && order[k] == e.id;
      before := order[..k];
      from, to := PassTells(room.roomId, since, keys, order, log, k);
    }
  }

  lemma UniqueAmong(known: seq<Event>, some: seq<Event>)
    requires RelationIdsUnique(known) && forall e :: e in some ==> e in known
    ensures RelationIdsUnique(some)
  {
  }
}
