/** Any sequence of operations on one room: each finds the caches exact and leaves them exact. */
module RoomRuns {
  import opened Collections
  import opened Timeline
  import opened RoomCache
  import Fetch
  import Redecryption

  datatype Operation =
    | FetchMessages(limit: nat, takes: nat, pages: seq<Fetch.Page>)
    | FetchMessage(event: Event, relations: seq<Event>)
    | RetryDecryption(selection: Option<set<string>>, keys: Redecryption.Keys)
    | NewReaction(event: Event)
    | RemoveReactionById(reactionId: string)
    | RemoveReactionByEmoji(messageId: string, user: string, emoji: string)

  /** The operation comes across these events only. */
  ghost predicate Within(op: Operation, known: seq<Event>) {
    match op
    case FetchMessages(_, _, pages) => pages != [] && forall e :: e in Fetch.AllEvents(pages) ==> e in known
    case FetchMessage(event, relations) => event in known && forall e :: e in relations ==> e in known
    case RetryDecryption(_, keys) =>
      Redecryption.Lawful(keys) && forall id :: keys(id).Decrypted? ==> keys(id).event in known
    case NewReaction(event) => event in known && event.body.Annotation?
    case _ => true
  }

  ghost predicate Exact(room: CachedRoom, known: seq<Event>)
    reads room
  {
    room.Valid() && RelationIdsUnique(known) && forall e :: e in room.seen ==> e in known
  }

  lemma UniqueWithin(known: seq<Event>, some: seq<Event>)
    requires RelationIdsUnique(known) && forall e :: e in some ==> e in known
    ensures RelationIdsUnique(some)
  {
    Fetch.UniqueSubset(known, some);
  }

  /** After any such operations the caches hold exactly the relations seen and not removed. */
  method Serve(room: CachedRoom, ops: seq<Operation>, ghost known: seq<Event>)
    requires Exact(room, known) && forall k :: 0 <= k < |ops| ==> Within(ops[k], known)
    modifies room
    ensures Exact(room, known)
  {
    for k := 0 to |ops|
      invariant Exact(room, known)
    {
      match ops[k]
      case FetchMessages(limit, takes, pages) => RunFetch(room, limit, takes, pages, known);
      case FetchMessage(event, relations) => RunFetchOne(room, event, relations, known);
      case RetryDecryption(selection, keys) =>
        var _, _, _, _ := Redecryption.RetryDecryption(room, selection, keys, known);
      case NewReaction(event) =>
        UniqueWithin(known, room.seen + [event]);
        room.CacheReaction(event);
      case RemoveReactionById(reactionId) =>
        var _, _ := room.RemoveReactionById(reactionId);
      case RemoveReactionByEmoji(messageId, user, emoji) =>
        var _, _, _ := room.RemoveReactionByEmoji(messageId, user, emoji);
    }
  }

  method RunFetch(room: CachedRoom, limit: nat, takes: nat, pages: seq<Fetch.Page>, ghost known: seq<Event>)
    requires Exact(room, known) && pages != [] && forall e :: e in Fetch.AllEvents(pages) ==> e in known
    modifies room
    ensures Exact(room, known)
  {
    var fetcher := new Fetch.MessagesFetcher(room, limit, takes, pages);
    ghost var seen, all := room.seen, Fetch.AllEvents(pages);
    assert seen + [] == seen;
    UniqueWithin(known, seen + all);
    ghost var done, result := fetcher.Run(seen);
    forall e | e in room.seen
      ensures e in known
    {
      assert e in seen || e in all;
    }
  }

  method RunFetchOne(room: CachedRoom, event: Event, relations: seq<Event>, ghost known: seq<Event>)
    requires Exact(room, known) && event in known && forall e :: e in relations ==> e in known
    modifies room
    ensures Exact(room, known)
  {
    ghost var seen := room.seen;
    UniqueWithin(known, seen + relations + [event]);
    var _ := Fetch.FetchMessage(room, event, relations);
    forall e | e in room.seen
      ensures e in known
    {
      assert e in seen || e in relations || e == event;
    }
  }
}
