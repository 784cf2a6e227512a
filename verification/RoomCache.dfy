/** The cache of one room, updated event by event, and removal of reactions (src/memory_cache.rs). */
module RoomCache {
  import opened Collections
  import opened Polls
  import opened Timeline
  import opened MemoryCache
  import opened Replies

  datatype ReactionMetadata = ReactionMetadata(
    reactionId: string, userId: string, emoji: string, messageId: string, roomId: string)

  datatype Action = MessageAction(message: Message) | ReactionAction(reaction: ReactionMetadata)

  datatype CacheError = UnableToAssembleMessage

  ghost predicate AllMirror(messages: map<string, CachedMessage>, seen: seq<Event>) {
    forall id :: Mirrors(EntryOf(messages, id), RelationsOf(seen, id))
  }

  /** The reaction index is the exact inverse of the per-message reaction maps. */
  ghost predicate IndexMirrors(index: map<string, string>, seen: seq<Event>) {
    && (forall e :: e in seen && e.body.Annotation? ==> e.id in index && index[e.id] == e.body.target)
    && (forall r :: r in index ==> exists e :: e in seen && e.body.Annotation? && e.id == r)
  }

  function MetadataOf(room: string, e: Event): ReactionMetadata
    requires e.body.Annotation?
  {
    ReactionMetadata(e.id, e.sender, e.body.emoji, e.body.target, room)
  }

  // ---- One more event ----

  lemma MirrorsUnaffected(c: CachedMessage, seen: seq<Event>, e: Event, id: string)
    requires Mirrors(c, RelationsOf(seen, id)) && !RelatesTo(e, id)
    ensures Mirrors(c, RelationsOf(seen + [e], id))
  {
    LaterEventsIrrelevant(seen, [e], id);
  }

  lemma AllMirrorStep(messages: map<string, CachedMessage>, seen: seq<Event>, e: Event, id: string, c: CachedMessage)
    requires AllMirror(messages, seen) && Mirrors(c, RelationsOf(seen + [e], id))
    requires forall other :: other != id ==> !RelatesTo(e, other)
    ensures AllMirror(messages[id := c], seen + [e])
  {
    var after := messages[id := c];
    forall other
      ensures Mirrors(EntryOf(after, other), RelationsOf(seen + [e], other))
    {
      if other != id {
        MirrorsUnaffected(EntryOf(messages, other), seen, e, other);
      }
    }
  }

  lemma IndexUnaffected(index: map<string, string>, seen: seq<Event>, e: Event)
    requires IndexMirrors(index, seen) && !e.body.Annotation?
    ensures IndexMirrors(index, seen + [e])
  {
    forall r | r in index
      ensures exists f :: f in seen + [e] && f.body.Annotation? && f.id == r
    {
      var f :| f in seen && f.body.Annotation? && f.id == r;
      assert f in seen + [e];
    }
  }

  lemma KeyedInsert(keys: set<string>, es: set<Event>, e: Event)
    requires Keyed(keys, es)
    ensures Keyed(keys + {e.id}, es + {e})
  {
    forall k | k in keys + {e.id}
      ensures exists f :: f in es + {e} && f.id == k
    {
      if k == e.id {
        assert e in es + {e};
      } else {
        var f :| f in es && f.id == k;
        assert f in es + {e};
      }
    }
  }

  /** How the relations of the target grow by an event that relates to it. */
  function Extended(r: Relations, e: Event): Relations {
    match e.body
    case MessageReplacement(_, Some(_)) => r.(replacements := r.replacements + {e})
    case Annotation(_, _) => r.(annotations := r.annotations + {e})
    case PollReplacement(_, _) => r.(pollReplacements := r.pollReplacements + {e})
    case PollAnswer(_, _) => r.(pollAnswers := r.pollAnswers + {e})
    case PollClosed(_) => r.(pollClosings := r.pollClosings + {e})
    case Redaction(_, _) => r.(redaction := Some(e))
    case _ => r
  }

  lemma RelationsAppend(seen: seq<Event>, e: Event, id: string)
    ensures var r, one, all := RelationsOf(seen, id), RelationsOf([e], id), RelationsOf(seen + [e], id);
            && all.replacements == r.replacements + one.replacements
            && all.annotations == r.annotations + one.annotations
            && all.pollReplacements == r.pollReplacements + one.pollReplacements
            && all.pollAnswers == r.pollAnswers + one.pollAnswers
            && all.pollClosings == r.pollClosings + one.pollClosings
            && all.redaction == if one.redaction.Some? then one.redaction else r.redaction
  {
    assert forall f :: f in seen + [e] <==> f in seen || f == e;
    assert Front(seen + [e]) == seen && Last(seen + [e]) == e;
    assert Front([e]) == [] && Last([e]) == e;
  }

  const NO_RELATIONS := Relations({}, {}, {}, {}, {}, None)

  lemma OneRelation(e: Event, id: string)
    requires RelatesTo(e, id)
    ensures RelationsOf([e], id) == Extended(NO_RELATIONS, e)
  {
    var one := RelationsOf([e], id);
    assert forall f :: f in [e] <==> f == e;
    assert Last([e]) == e && Front([e]) == [];
    assert one.replacements == if e.body.MessageReplacement? then {e} else {};
    assert one.annotations == if e.body.Annotation? then {e} else {};
    assert one.pollReplacements == if e.body.PollReplacement? then {e} else {};
    assert one.pollAnswers == if e.body.PollAnswer? then {e} else {};
    assert one.pollClosings == if e.body.PollClosed? then {e} else {};
  }

  lemma RelationsExtend(seen: seq<Event>, e: Event, id: string)
    requires RelatesTo(e, id)
    ensures RelationsOf(seen + [e], id) == Extended(RelationsOf(seen, id), e)
  {
    RelationsAppend(seen, e, id);
    OneRelation(e, id);
    assert forall es: set<Event> :: es + {} == es;
  }

  lemma ReactionsInsert(m: map<string, CachedReaction>, es: set<Event>, e: Event)
    requires ReactionsMirror(m, es) && UniqueIds(es + {e}) && e.body.Annotation?
    ensures ReactionsMirror(m[e.id := CachedReaction(e.sender, e.body.emoji)], es + {e})
  {
    KeyedInsert(m.Keys, es, e);
    assert m[e.id := CachedReaction(e.sender, e.body.emoji)].Keys == m.Keys + {e.id};
    assert e in es + {e} && forall f :: f in es ==> f in es + {e};
  }

  lemma ReplacementsInsert(m: map<string, CachedReplacement>, es: set<Event>, e: Event)
    requires ReplacementsMirror(m, es) && UniqueIds(es + {e}) && e.body.MessageReplacement? && e.body.newContent.Some?
    ensures ReplacementsMirror(m[e.id := CachedReplacement(e.timestamp, e.body.newContent.value)], es + {e})
  {
    KeyedInsert(m.Keys, es, e);
    assert m[e.id := CachedReplacement(e.timestamp, e.body.newContent.value)].Keys == m.Keys + {e.id};
    assert e in es + {e} && forall f :: f in es ==> f in es + {e};
  }

  lemma EventsInsert(m: map<string, Event>, es: set<Event>, e: Event)
    requires EventsMirror(m, es) && UniqueIds(es + {e})
    ensures EventsMirror(m[e.id := e], es + {e})
  {
    KeyedInsert(m.Keys, es, e);
    assert m[e.id := e].Keys == m.Keys + {e.id};
    assert e in es + {e} && forall f :: f in es ==> f in es + {e};
  }

  lemma ReplacementMirrored(c: CachedMessage, r: Relations, e: Event)
    requires Mirrors(c, r) && WellNamed(Extended(r, e)) && e.body.MessageReplacement? && e.body.newContent.Some?
    ensures var replacement := CachedReplacement(e.timestamp, e.body.newContent.value);
            Mirrors(c.(replacements := c.replacements[e.id := replacement]), Extended(r, e))
  {
    ReplacementsInsert(c.replacements, r.replacements, e);
  }

  lemma ReactionMirrored(c: CachedMessage, r: Relations, e: Event)
    requires Mirrors(c, r) && WellNamed(Extended(r, e)) && e.body.Annotation?
    ensures Mirrors(c.(reactions := c.reactions[e.id := CachedReaction(e.sender, e.body.emoji)]), Extended(r, e))
  {
    ReactionsInsert(c.reactions, r.annotations, e);
  }

  lemma PollReplacementMirrored(c: CachedMessage, r: Relations, e: Event)
    requires Mirrors(c, r) && WellNamed(Extended(r, e)) && e.body.PollReplacement?
    ensures Mirrors(c.(pollReplacements := c.pollReplacements[e.id := e]), Extended(r, e))
  {
    EventsInsert(c.pollReplacements, r.pollReplacements, e);
  }

  lemma PollAnswerMirrored(c: CachedMessage, r: Relations, e: Event)
    requires Mirrors(c, r) && WellNamed(Extended(r, e)) && e.body.PollAnswer?
    ensures Mirrors(c.(pollAnswers := c.pollAnswers[e.id := e]), Extended(r, e))
  {
    EventsInsert(c.pollAnswers, r.pollAnswers, e);
  }

  lemma PollClosingMirrored(c: CachedMessage, r: Relations, e: Event)
    requires Mirrors(c, r) && WellNamed(Extended(r, e)) && e.body.PollClosed?
    ensures Mirrors(c.(pollClosings := c.pollClosings[e.id := e]), Extended(r, e))
  {
    EventsInsert(c.pollClosings, r.pollClosings, e);
  }

  /** A cached message with one more relation to it. */
  function Absorb(c: CachedMessage, e: Event): CachedMessage {
    match e.body
    case MessageReplacement(_, Some(content)) =>
      c.(replacements := c.replacements[e.id := CachedReplacement(e.timestamp, content)])
    case Annotation(_, emoji) => c.(reactions := c.reactions[e.id := CachedReaction(e.sender, emoji)])
    case PollReplacement(_, _) => c.(pollReplacements := c.pollReplacements[e.id := e])
    case PollAnswer(_, _) => c.(pollAnswers := c.pollAnswers[e.id := e])
    case PollClosed(_) => c.(pollClosings := c.pollClosings[e.id := e])
    case Redaction(_, _) => c.(redaction := Some(e))
    case _ => c
  }

  lemma AbsorbMirrored(c: CachedMessage, r: Relations, e: Event)
    requires Mirrors(c, r) && WellNamed(Extended(r, e)) && (IsRelation(e) || e.body.Redaction?)
    ensures Mirrors(Absorb(c, e), Extended(r, e))
  {
    match e.body
    case MessageReplacement(_, Some(_)) => ReplacementMirrored(c, r, e);
    case Annotation(_, _) => ReactionMirrored(c, r, e);
    case PollReplacement(_, _) => PollReplacementMirrored(c, r, e);
    case PollAnswer(_, _) => PollAnswerMirrored(c, r, e);
    case PollClosed(_) => PollClosingMirrored(c, r, e);
    case Redaction(_, _) =>
  }

  /** Stashing a relation with its target keeps the caches in step with the events seen. */
  lemma Stashed(messages: map<string, CachedMessage>, seen: seq<Event>, e: Event)
    requires AllMirror(messages, seen) && RelationIdsUnique(seen + [e]) && (IsRelation(e) || e.body.Redaction?)
    ensures AllMirror(messages[e.body.target := Absorb(EntryOf(messages, e.body.target), e)], seen + [e])
  {
    var id := e.body.target;
    RelationsExtend(seen, e, id);
    RelationsWellNamed(seen + [e], id);
    AbsorbMirrored(EntryOf(messages, id), RelationsOf(seen, id), e);
    AllMirrorStep(messages, seen, e, id, Absorb(EntryOf(messages, id), e));
  }

  lemma IndexExtended(index: map<string, string>, seen: seq<Event>, e: Event)
    requires IndexMirrors(index, seen) && e.body.Annotation? && RelationIdsUnique(seen + [e])
    ensures IndexMirrors(index[e.id := e.body.target], seen + [e])
  {
    var after := index[e.id := e.body.target];
    assert e in seen + [e];
    forall f | f in seen + [e] && f.body.Annotation?
      ensures f.id in after && after[f.id] == f.body.target
    {
      assert !Clash(e, f);
    }
    forall r | r in after
      ensures exists f :: f in seen + [e] && f.body.Annotation? && f.id == r
    {
      if r != e.id {
        var f :| f in seen && f.body.Annotation? && f.id == r;
        assert f in seen + [e];
      }
    }
  }

  /** An event that relates to nothing leaves all mirrors in place; remembering an original does, too. */
  lemma Ignored(messages: map<string, CachedMessage>, after: map<string, CachedMessage>, seen: seq<Event>, e: Event)
    requires AllMirror(messages, seen) && !IsRelation(e) && !e.body.Redaction?
    requires forall id :: EntryOf(after, id) == EntryOf(messages, id).(original := EntryOf(after, id).original)
    ensures AllMirror(after, seen + [e])
  {
    forall id
      ensures Mirrors(EntryOf(after, id), RelationsOf(seen + [e], id))
    {
      MirrorsUnaffected(EntryOf(messages, id), seen, e, id);
    }
  }

  lemma Remembered(messages: map<string, CachedMessage>, seen: seq<Event>, e: Event, id: string, original: Message)
    requires AllMirror(messages, seen) && !IsRelation(e) && !e.body.Redaction?
    ensures AllMirror(messages[id := EntryOf(messages, id).(original := Some(original))], seen + [e])
  {
    Ignored(messages, messages[id := EntryOf(messages, id).(original := Some(original))], seen, e);
  }

  /** Events that produce nothing by themselves. */
  predicate IsStashed(e: Event) {
    e.body.MessageReplacement? || e.body.PollReplacement? || e.body.PollAnswer? || e.body.PollClosed?
    || e.body.Redaction? || e.body.NoEffect?
  }

  // ---- Forgetting reactions ----

  lemma {:induction false} RedactionKept(seen: seq<Event>, drop: set<Event>, id: string)
    requires forall e :: e in drop ==> e.body.Annotation?
    ensures LastRedaction(Without(seen, drop), id) == LastRedaction(seen, id)
  {
    if seen == [] {
    } else {
      RedactionKept(Front(seen), drop, id);
      var kept := Without(Front(seen), drop);
      if Last(seen) in drop {
        assert Without(seen, drop) == kept;
      } else {
        assert Without(seen, drop) == kept + [Last(seen)];
        assert Front(kept + [Last(seen)]) == kept && Last(kept + [Last(seen)]) == Last(seen);
      }
    }
  }

  lemma RelationsForget(seen: seq<Event>, drop: set<Event>, id: string)
    requires forall e :: e in drop ==> e.body.Annotation?
    ensures var r := RelationsOf(seen, id);
            RelationsOf(Without(seen, drop), id) == r.(annotations := r.annotations - drop)
  {
    RedactionKept(seen, drop, id);
    var kept := Without(seen, drop);
    assert forall e :: e in seen && !e.body.Annotation? ==> e in kept;
    assert forall e :: e in kept ==> e in seen;
  }

  lemma ReactionsForget(m: map<string, CachedReaction>, es: set<Event>, drop: set<Event>, ids: set<string>)
    requires ReactionsMirror(m, es) && UniqueIds(es)
    requires ids == set e | e in es && e in drop :: e.id
    ensures ReactionsMirror(m - ids, es - drop)
  {
    forall k | k in (m - ids).Keys
      ensures exists e :: e in es - drop && e.id == k
    {
      var e :| e in es && e.id == k;
      assert e in es - drop;
    }
    assert forall e :: e in es - drop ==> e.id !in ids;
  }

  /** Dropping reactions of one message from the caches is forgetting their events. */
  lemma Forgotten(
    messages: map<string, CachedMessage>, seen: seq<Event>, drop: set<Event>, id: string, ids: set<string>)
    requires AllMirror(messages, seen) && RelationIdsUnique(seen)
    requires forall e :: e in drop ==> e in Annotations(seen, id)
    requires ids == set e | e in drop :: e.id
    ensures var c := EntryOf(messages, id);
            AllMirror(messages[id := c.(reactions := c.reactions - ids)], Without(seen, drop))
  {
    var c := EntryOf(messages, id);
    var after := messages[id := c.(reactions := c.reactions - ids)];
    forall other
      ensures Mirrors(EntryOf(after, other), RelationsOf(Without(seen, drop), other))
    {
      assert Mirrors(EntryOf(messages, other), RelationsOf(seen, other));
      RelationsForget(seen, drop, other);
      if other == id {
        RelationsWellNamed(seen, id);
        assert ids == set e | e in Annotations(seen, id) && e in drop :: e.id;
        ReactionsForget(c.reactions, Annotations(seen, id), drop, ids);
      } else {
        assert Annotations(seen, other) - drop == Annotations(seen, other);
      }
    }
  }

  /** Where the index points there is a cached message holding the one reaction with that id. */
  lemma Locate(messages: map<string, CachedMessage>, index: map<string, string>, seen: seq<Event>, reactionId: string)
    returns (e: Event)
    requires AllMirror(messages, seen) && RelationIdsUnique(seen) && IndexMirrors(index, seen)
    requires reactionId in index
    ensures (set f | f in seen && f.body.Annotation? && f.id == reactionId) == {e}
    ensures e in Annotations(seen, index[reactionId]) && e.id == reactionId
    ensures index[reactionId] in messages && reactionId in messages[index[reactionId]].reactions
    ensures messages[index[reactionId]].reactions[reactionId] == CachedReaction(e.sender, e.body.emoji)
  {
    e :| e in seen && e.body.Annotation? && e.id == reactionId;
    var id := index[reactionId];
    assert Mirrors(EntryOf(messages, id), RelationsOf(seen, id));
    assert ReactionsMirror(EntryOf(messages, id).reactions, Annotations(seen, id));
    assert e in Annotations(seen, id);
    forall f | f in seen && f.body.Annotation? && f.id == reactionId
      ensures f == e
    {
      assert !Clash(e, f);
    }
  }

  predicate MatchesEmoji(r: CachedReaction, user: string, emoji: string) {
    r.userId == user && r.emoji == emoji
  }

  function AnnotationsBy(seen: seq<Event>, messageId: string, user: string, emoji: string): set<Event> {
    set e | e in Annotations(seen, messageId) && e.sender == user && e.body.emoji == emoji
  }

  /** The cached reactions that match are those of the matching annotations. */
  lemma MatchingReactions(
    messages: map<string, CachedMessage>, seen: seq<Event>, messageId: string, user: string, emoji: string,
    ids: set<string>)
    requires AllMirror(messages, seen)
    requires var m := EntryOf(messages, messageId).reactions;
             forall k :: k in ids <==> k in m && MatchesEmoji(m[k], user, emoji)
    ensures ids == set e | e in AnnotationsBy(seen, messageId, user, emoji) :: e.id
    ensures ids == {} <==> AnnotationsBy(seen, messageId, user, emoji) == {}
  {
    assert Mirrors(EntryOf(messages, messageId), RelationsOf(seen, messageId));
    assert ReactionsMirror(EntryOf(messages, messageId).reactions, Annotations(seen, messageId));
    forall k | k in ids
      ensures exists e :: e in AnnotationsBy(seen, messageId, user, emoji) && e.id == k
    {
      var e :| e in Annotations(seen, messageId) && e.id == k;
    }
    assert forall e :: e in AnnotationsBy(seen, messageId, user, emoji) ==> e.id in ids;
  }

  lemma IndexForget(index: map<string, string>, seen: seq<Event>, drop: set<Event>, ids: set<string>)
    requires IndexMirrors(index, seen) && RelationIdsUnique(seen)
    requires forall e :: e in drop ==> e in seen && e.body.Annotation?
    requires ids == set e | e in drop :: e.id
    ensures IndexMirrors(index - ids, Without(seen, drop))
  {
    var kept := Without(seen, drop);
    forall e | e in kept && e.body.Annotation?
      ensures e.id !in ids
    {
      assert forall f :: f in drop && f.id == e.id ==> f == e || Clash(e, f);
    }
    forall r | r in index - ids
      ensures exists e :: e in kept && e.body.Annotation? && e.id == r
    {
      var e :| e in seen && e.body.Annotation? && e.id == r;
      assert e in kept;
    }
  }

  lemma UniqueIgnored(seen: seq<Event>, e: Event)
    requires RelationIdsUnique(seen) && !IsRelation(e)
    ensures RelationIdsUnique(seen + [e])
  {
  }

  /** The undecryptable events after one more event: those sent as encrypted and not decrypted since. */
  function EncryptedAfter(encrypted: map<string, Event>, e: Event): map<string, Event> {
    if e.body.Undecryptable? then encrypted[e.id := e]
    else if e.wasEncrypted && !e.body.Malformed? then encrypted - {e.id}
    else encrypted
  }

  /** The reply to an event, given the events seen before it. */
  ghost predicate Answers(room: string, seen: seq<Event>, e: Event, r: Result<Option<Action>, CacheError>) {
    match Produce(room, e)
    case Produces(base) =>
      r.Ok? && r.value.Some? && r.value.value.MessageAction? && Rendered(seen, base, r.value.value.message)
    case Breaks => r == Err(UnableToAssembleMessage)
    case Silent => r == Ok(if e.body.Annotation? then Some(ReactionAction(MetadataOf(room, e))) else None)
  }

  /** What the reply is, kind by kind, in terms of the event and those seen before. */
  ghost predicate RepliesWith(room: string, seen: seq<Event>, e: Event, r: Result<Option<Action>, CacheError>) {
    match e.body
    case Annotation(target, emoji) =>
      r == Ok(Some(ReactionAction(ReactionMetadata(e.id, e.sender, emoji, target, room))))
    case NewPoll(start) =>
      if start.kind.Custom? then r == Err(UnableToAssembleMessage) else RepliesMessage(room, seen, e, r)
    case RoomMessage(_, _) => RepliesMessage(room, seen, e, r)
    case RedactedMessage => RepliesMessage(room, seen, e, r)
    case Membership(_, _) => RepliesMessage(room, seen, e, r)
    case Undecryptable => RepliesMessage(room, seen, e, r)
    case _ => r == Ok(None)
  }

  ghost predicate RepliesMessage(room: string, seen: seq<Event>, e: Event, r: Result<Option<Action>, CacheError>) {
    r.Ok? && r.value.Some? && r.value.value.MessageAction? && Tells(room, seen, e, r.value.value.message)
  }

  lemma AnswerTells(room: string, seen: seq<Event>, e: Event, r: Result<Option<Action>, CacheError>)
    requires Answers(room, seen, e, r)
    ensures RepliesWith(room, seen, e, r)
  {
    ProducesIff(room, e);
    if Produce(room, e).Produces? {
      MessageTells(room, seen, e, r.value.value.message);
    }
  }

  class CachedRoom {
    const roomId: string
    var messages: map<string, CachedMessage>
    var encryptedEvents: map<string, Event>
    var reactionIdToMessage: map<string, string>
    ghost var seen: seq<Event>

    /** The caches hold exactly the relations among the events seen. */
    ghost predicate Valid()
      reads this
    {
      RelationIdsUnique(seen) && AllMirror(messages, seen) && IndexMirrors(reactionIdToMessage, seen)
    }

    constructor (roomId: string)
      ensures seen == [] && encryptedEvents == map[] && this.roomId == roomId
      ensures Valid()
    {
      this.roomId := roomId;
      messages := map[];
      encryptedEvents := map[];
      reactionIdToMessage := map[];
      seen := [];
    }

    /** Every update of the caches ends here, with the two locks held. */
    method Commit(messages: map<string, CachedMessage>, index: map<string, string>, ghost seen: seq<Event>)
      requires RelationIdsUnique(seen) && AllMirror(messages, seen) && IndexMirrors(index, seen)
      modifies this`messages, this`reactionIdToMessage, this`seen
      ensures this.messages == messages && reactionIdToMessage == index && this.seen == seen
      ensures Valid()
    {
      this.messages, reactionIdToMessage := messages, index;
      this.seen := seen;
    }

    method CacheReplacement(e: Event)
      requires Valid() && RelationIdsUnique(seen + [e]) && e.body.MessageReplacement? && e.body.newContent.Some?
      modifies this
      ensures seen == old(seen) + [e] && encryptedEvents == old(encryptedEvents)
      ensures Valid()
    {
      var c := EntryOf(messages, e.body.target);
      Stashed(messages, seen, e);
      c := c.(replacements := c.replacements[e.id := CachedReplacement(e.timestamp, e.body.newContent.value)]);
      IndexUnaffected(reactionIdToMessage, seen, e);
      Commit(messages[e.body.target := c], reactionIdToMessage, seen + [e]);
    }

    method CacheReaction(e: Event)
      requires Valid() && RelationIdsUnique(seen + [e]) && e.body.Annotation?
      modifies this
      ensures seen == old(seen) + [e] && encryptedEvents == old(encryptedEvents)
      ensures Valid()
    {
      var c := EntryOf(messages, e.body.target);
      Stashed(messages, seen, e);
      c := c.(reactions := c.reactions[e.id := CachedReaction(e.sender, e.body.emoji)]);
      IndexExtended(reactionIdToMessage, seen, e);
      Commit(messages[e.body.target := c], reactionIdToMessage[e.id := e.body.target], seen + [e]);
    }

    method CachePollReplacement(e: Event)
      requires Valid() && RelationIdsUnique(seen + [e]) && e.body.PollReplacement?
      modifies this
      ensures seen == old(seen) + [e] && encryptedEvents == old(encryptedEvents)
      ensures Valid()
    {
      var c := EntryOf(messages, e.body.target);
      Stashed(messages, seen, e);
      c := c.(pollReplacements := c.pollReplacements[e.id := e]);
      IndexUnaffected(reactionIdToMessage, seen, e);
      Commit(messages[e.body.target := c], reactionIdToMessage, seen + [e]);
    }

    method CachePollAnswer(e: Event)
      requires Valid() && RelationIdsUnique(seen + [e]) && e.body.PollAnswer?
      modifies this
      ensures seen == old(seen) + [e] && encryptedEvents == old(encryptedEvents)
      ensures Valid()
    {
      var c := EntryOf(messages, e.body.target);
      Stashed(messages, seen, e);
      c := c.(pollAnswers := c.pollAnswers[e.id := e]);
      IndexUnaffected(reactionIdToMessage, seen, e);
      Commit(messages[e.body.target := c], reactionIdToMessage, seen + [e]);
    }

    method CachePollClosing(e: Event)
      requires Valid() && RelationIdsUnique(seen + [e]) && e.body.PollClosed?
      modifies this
      ensures seen == old(seen) + [e] && encryptedEvents == old(encryptedEvents)
      ensures Valid()
    {
      var c := EntryOf(messages, e.body.target);
      Stashed(messages, seen, e);
      c := c.(pollClosings := c.pollClosings[e.id := e]);
      IndexUnaffected(reactionIdToMessage, seen, e);
      Commit(messages[e.body.target := c], reactionIdToMessage, seen + [e]);
    }

    method CacheRedaction(e: Event)
      requires Valid() && RelationIdsUnique(seen + [e]) && e.body.Redaction?
      modifies this
      ensures seen == old(seen) + [e] && encryptedEvents == old(encryptedEvents)
      ensures Valid()
    {
      var c := EntryOf(messages, e.body.target).(redaction := Some(e));
      Stashed(messages, seen, e);
      IndexUnaffected(reactionIdToMessage, seen, e);
      Commit(messages[e.body.target := c], reactionIdToMessage, seen + [e]);
    }

    method CacheAndBuildMessage(original: Message, ghost e: Event) returns (m: Message)
      requires Valid() && !original.isEncrypted && !IsRelation(e) && !e.body.Redaction?
      modifies this
      ensures seen == old(seen) + [e] && encryptedEvents == old(encryptedEvents)
      ensures Valid()
      ensures Rendered(old(seen), original, m)
      ensures EntryOf(messages, original.messageId).original == Some(original)
    {
      var c := EntryOf(messages, original.messageId);
      RelationsWellNamed(seen, original.messageId);
      assert Mirrors(EntryOf(messages, original.messageId), RelationsOf(seen, original.messageId));
      m, c := BuildFromOriginal(c, original, RelationsOf(seen, original.messageId));
      Remembered(messages, seen, e, original.messageId, original);
      UniqueIgnored(seen, e);
      IndexUnaffected(reactionIdToMessage, seen, e);
      Commit(messages[original.messageId := c], reactionIdToMessage, seen + [e]);
    }

    /** An event without effect on the caches. */
    ghost method Skip(e: Event)
      requires Valid() && !IsRelation(e) && !e.body.Redaction?
      modifies this`seen
      ensures seen == old(seen) + [e]
      ensures Valid()
    {
      Ignored(messages, messages, seen, e);
      UniqueIgnored(seen, e);
      IndexUnaffected(reactionIdToMessage, seen, e);
      seen := seen + [e];
    }

    method ProcessTimelineEvent(e: Event) returns (r: Result<Option<Action>, CacheError>)
      requires Valid() && RelationIdsUnique(seen + [e])
      modifies this
      ensures seen == old(seen) + [e]
      ensures Valid()
      ensures encryptedEvents == EncryptedAfter(old(encryptedEvents), e)
      ensures Answers(roomId, old(seen), e, r)
      ensures RepliesWith(roomId, old(seen), e, r)
    {
      if e.body.Undecryptable? {
        encryptedEvents := encryptedEvents[e.id := e];
        Skip(e);
        r := Ok(Some(MessageAction(BaseMessage(roomId, e, None).(isEncrypted := true))));
        AnswerTells(roomId, old(seen), e, r);
        return;
      }
      if e.body.Malformed? {
        Skip(e);
        return Ok(None);
      }
      if e.wasEncrypted {
        encryptedEvents := encryptedEvents - {e.id};
      }
      r := ProcessReadableEvent(e);
    }

    method ProcessReadableEvent(e: Event) returns (r: Result<Option<Action>, CacheError>)
      requires Valid() && RelationIdsUnique(seen + [e]) && !e.body.Undecryptable? && !e.body.Malformed?
      modifies this
      ensures seen == old(seen) + [e] && encryptedEvents == old(encryptedEvents)
      ensures Valid()
      ensures Answers(roomId, old(seen), e, r)
      ensures RepliesWith(roomId, old(seen), e, r)
    {
      if IsStashed(e) {
        StashRelation(e);
        return Ok(None);
      }
      match e.body {
        case RoomMessage(content, details) =>
          var m := CacheAndBuildMessage(BaseMessage(roomId, e, content).(details := details), e);
          r := Ok(Some(MessageAction(m)));
        case RedactedMessage =>
          var m := CacheAndBuildMessage(BaseMessage(roomId, e, Some(Removed(None))), e);
          r := Ok(Some(MessageAction(m)));
        case NewPoll(start) =>
          var assembled := AssemblePollStart(start);
          if assembled.Err? {
            Skip(e);
            return Err(UnableToAssembleMessage);
          }
          var m := CacheAndBuildMessage(BaseMessage(roomId, e, Some(PollContent(assembled.value))), e);
          r := Ok(Some(MessageAction(m)));
        case Membership(change, user) =>
          var m := CacheAndBuildMessage(BaseMessage(roomId, e, Some(MembershipChange(change, user))), e);
          r := Ok(Some(MessageAction(m)));
        case Annotation(_, _) =>
          CacheReaction(e);
          r := Ok(Some(ReactionAction(MetadataOf(roomId, e))));
      }
      AnswerTells(roomId, old(seen), e, r);
    }

    /** Relations other than reactions are stashed until their target is reached. */
    method StashRelation(e: Event)
      requires Valid() && RelationIdsUnique(seen + [e]) && IsStashed(e)
      modifies this
      ensures seen == old(seen) + [e] && encryptedEvents == old(encryptedEvents)
      ensures Valid()
    {
      if e.body.MessageReplacement? && e.body.newContent.Some? {
        CacheReplacement(e);
      } else if e.body.PollReplacement? {
        CachePollReplacement(e);
      } else if e.body.PollAnswer? {
        CachePollAnswer(e);
      } else if e.body.PollClosed? {
        CachePollClosing(e);
      } else if e.body.Redaction? {
        CacheRedaction(e);
      } else {
        Skip(e);
      }
    }

    /** Finds the reaction through the index; the result is that of a scan over all annotations. */
    method RemoveReactionById(reactionId: string) returns (r: Option<ReactionMetadata>, ghost dropped: set<Event>)
      requires Valid()
      modifies this
      ensures encryptedEvents == old(encryptedEvents)
      ensures Valid()
      ensures dropped == set e | e in old(seen) && e.body.Annotation? && e.id == reactionId
      ensures seen == Without(old(seen), dropped)
      ensures r.None? <==> dropped == {}
      ensures forall e :: e in dropped ==> r == Some(MetadataOf(roomId, e))
    {
      dropped := set e | e in seen && e.body.Annotation? && e.id == reactionId;
      if reactionId !in reactionIdToMessage {
        WithoutNothing(seen, dropped);
        return None, dropped;
      }
      var messageId := reactionIdToMessage[reactionId];
      ghost var e := Locate(messages, reactionIdToMessage, seen, reactionId);
      var c := messages[messageId];
      var removed := c.reactions[reactionId];
      Forgotten(messages, seen, dropped, messageId, {reactionId});
      IndexForget(reactionIdToMessage, seen, dropped, {reactionId});
      Commit(messages[messageId := c.(reactions := c.reactions - {reactionId})], reactionIdToMessage - {reactionId},
             Without(seen, dropped));
      r := Some(ReactionMetadata(reactionId, removed.userId, removed.emoji, messageId, roomId));
    }

    /** Extracts the matching reactions of the cached message in its iteration order, then cleans the index up. */
    method RemoveReactionByEmoji(messageId: string, user: string, emoji: string)
      returns (r: Option<ReactionMetadata>, ghost dropped: set<Event>, ghost first: Option<Event>)
      requires Valid()
      modifies this
      ensures encryptedEvents == old(encryptedEvents)
      ensures Valid()
      ensures dropped == AnnotationsBy(old(seen), messageId, user, emoji)
      ensures forall e :: e in dropped <==> e in old(seen) && e.body.Annotation? && e.body.target == messageId
                                            && e.sender == user && e.body.emoji == emoji
      ensures seen == Without(old(seen), dropped)
      ensures r.None? <==> dropped == {}
      ensures r.Some? ==> first.Some? && first.value in dropped && r.value == MetadataOf(roomId, first.value)
    {
      dropped, first := AnnotationsBy(seen, messageId, user, emoji), None;
      if messageId !in messages {
        MatchingReactions(messages, seen, messageId, user, emoji, {});
        WithoutNothing(seen, dropped);
        return None, dropped, None;
      }
      ghost var was, seenBefore := messages, seen;
      var reactions := messages[messageId].reactions;
      var removed := ExtractFromMessage(messageId, user, emoji);
      if removed == [] {
        return None, dropped, None;
      }
      ghost var e := FirstRemoved(was, seenBefore, messageId, user, emoji, removed);
      var reaction := reactions[removed[0]];
      r := Some(ReactionMetadata(removed[0], reaction.userId, reaction.emoji, messageId, roomId));
      first := Some(e);
    }

    method ExtractFromMessage(messageId: string, user: string, emoji: string) returns (removed: seq<string>)
      requires Valid() && messageId in messages
      modifies this
      ensures encryptedEvents == old(encryptedEvents)
      ensures Valid()
      ensures seen == Without(old(seen), AnnotationsBy(old(seen), messageId, user, emoji))
      ensures removed == [] <==> AnnotationsBy(old(seen), messageId, user, emoji) == {}
      ensures var m := old(messages)[messageId].reactions;
              forall k :: k in removed <==> k in m && MatchesEmoji(m[k], user, emoji)
    {
      var c := messages[messageId];
      var reactions;
      reactions, removed := ExtractReactions(c.reactions, user, emoji);
      var index := CleanupReactions(reactionIdToMessage, removed);
      EmojiForgotten(messages, index, reactionIdToMessage, seen, messageId, user, emoji, removed,
                     AnnotationsBy(seen, messageId, user, emoji));
      Commit(messages[messageId := c.(reactions := reactions)], index,
             Without(seen, AnnotationsBy(seen, messageId, user, emoji)));
    }
  }

  lemma EmojiForgotten(
    messages: map<string, CachedMessage>, after: map<string, string>, index: map<string, string>, seen: seq<Event>,
    messageId: string, user: string, emoji: string, removed: seq<string>, dropped: set<Event>)
    requires AllMirror(messages, seen) && RelationIdsUnique(seen) && IndexMirrors(index, seen)
    requires var m := EntryOf(messages, messageId).reactions;
             forall k :: k in removed <==> k in m && MatchesEmoji(m[k], user, emoji)
    requires dropped == AnnotationsBy(seen, messageId, user, emoji)
    requires after == index - Elements(removed)
    ensures var c := EntryOf(messages, messageId);
            AllMirror(messages[messageId := c.(reactions := c.reactions - Elements(removed))], Without(seen, dropped))
    ensures IndexMirrors(after, Without(seen, dropped)) && RelationIdsUnique(Without(seen, dropped))
    ensures removed == [] <==> dropped == {}
  {
    var ids := Elements(removed);
    MatchingReactions(messages, seen, messageId, user, emoji, ids);
    Forgotten(messages, seen, dropped, messageId, ids);
    IndexForget(index, seen, dropped, ids);
    if removed != [] {
      assert removed[0] in ids;
    }
  }

  lemma FirstRemoved(
    messages: map<string, CachedMessage>, seen: seq<Event>, messageId: string, user: string, emoji: string,
    removed: seq<string>)
    returns (e: Event)
    requires AllMirror(messages, seen) && messageId in messages && removed != []
    requires var m := messages[messageId].reactions;
             forall k :: k in removed <==> k in m && MatchesEmoji(m[k], user, emoji)
    ensures e in AnnotationsBy(seen, messageId, user, emoji) && e.id == removed[0]
    ensures removed[0] in messages[messageId].reactions
    ensures messages[messageId].reactions[removed[0]] == CachedReaction(e.sender, e.body.emoji)
  {
    var ids := Elements(removed);
    MatchingReactions(messages, seen, messageId, user, emoji, ids);
    assert removed[0] in ids;
    e :| e in AnnotationsBy(seen, messageId, user, emoji) && e.id == removed[0];
    assert Mirrors(EntryOf(messages, messageId), RelationsOf(seen, messageId));
    assert ReactionsMirror(EntryOf(messages, messageId).reactions, Annotations(seen, messageId));
  }

  method ExtractReactions(all: map<string, CachedReaction>, user: string, emoji: string)
    returns (kept: map<string, CachedReaction>, removed: seq<string>)
    ensures forall k :: k in removed <==> k in all && MatchesEmoji(all[k], user, emoji)
    ensures kept == all - Elements(removed)
  {
    var keys := Iterate(all.Keys);
    kept, removed := all, [];
    for i := 0 to |keys|
      invariant forall k :: k in removed <==> k in keys[..i] && k in all && MatchesEmoji(all[k], user, emoji)
      invariant kept == all - Elements(removed)
    {
      assert keys[i] in keys;
      assert keys[..i + 1] == keys[..i] + [keys[i]];
      if MatchesEmoji(all[keys[i]], user, emoji) {
        kept := kept - {keys[i]};
        removed := removed + [keys[i]];
      }
    }
    assert keys[..|keys|] == keys;
  }

  method CleanupReactions(index: map<string, string>, removed: seq<string>) returns (r: map<string, string>)
    ensures r == index - Elements(removed)
  {
    r := index;
    for i := 0 to |removed|
      invariant r == index - Elements(removed[..i])
    {
      assert removed[..i + 1] == removed[..i] + [removed[i]];
      r := r - {removed[i]};
    }
    assert removed[..|removed|] == removed;
  }
}
