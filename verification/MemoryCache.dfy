/** The room cache: relations stashed until their target arrives (src/memory_cache.rs). */
module MemoryCache {
  import opened Collections
  import opened Polls
  import opened Timeline

  datatype CachedReaction = CachedReaction(userId: string, emoji: string)

  datatype CachedReplacement = CachedReplacement(timestamp: int, newContent: Content)

  datatype CachedMessage = CachedMessage(
    original: Option<Message>,
    reactions: map<string, CachedReaction>,
    replacements: map<string, CachedReplacement>,
    redaction: Option<Event>,
    pollReplacements: map<string, Event>,
    pollAnswers: map<string, Event>,
    pollClosings: map<string, Event>)

  const EMPTY_MESSAGE := CachedMessage(None, map[], map[], None, map[], map[], map[])

  function EntryOf(messages: map<string, CachedMessage>, id: string): CachedMessage {
    if id in messages then messages[id] else EMPTY_MESSAGE
  }

  // ---- A cached message mirrors the relations seen ----

  ghost predicate Keyed(keys: set<string>, es: set<Event>) {
    && (forall e :: e in es ==> e.id in keys)
    && (forall k :: k in keys ==> exists e :: e in es && e.id == k)
  }

  ghost predicate ReactionsMirror(m: map<string, CachedReaction>, es: set<Event>) {
    && Keyed(m.Keys, es)
    && forall e :: e in es ==> e.body.Annotation? && m[e.id] == CachedReaction(e.sender, e.body.emoji)
  }

  ghost predicate ReplacementsMirror(m: map<string, CachedReplacement>, es: set<Event>) {
    && Keyed(m.Keys, es)
    && forall e :: e in es ==> e.body.MessageReplacement? && e.body.newContent.Some?
                               && m[e.id] == CachedReplacement(e.timestamp, e.body.newContent.value)
  }

  ghost predicate EventsMirror(m: map<string, Event>, es: set<Event>) {
    Keyed(m.Keys, es) && forall e :: e in es ==> m[e.id] == e
  }

  ghost predicate Mirrors(c: CachedMessage, r: Relations) {
    && ReactionsMirror(c.reactions, r.annotations)
    && ReplacementsMirror(c.replacements, r.replacements)
    && c.redaction == r.redaction && (r.redaction.Some? ==> r.redaction.value.body.Redaction?)
    && EventsMirror(c.pollReplacements, r.pollReplacements)
    && EventsMirror(c.pollAnswers, r.pollAnswers)
    && EventsMirror(c.pollClosings, r.pollClosings)
  }

  // ---- From keys to events ----

  ghost predicate UniqueIds(es: set<Event>) {
    forall e, f :: e in es && f in es && e.id == f.id ==> e == f
  }

  /** The relations of one message: every kind is uniquely named, and answers are answers. */
  ghost predicate WellNamed(r: Relations) {
    && UniqueIds(r.annotations) && UniqueIds(r.replacements)
    && UniqueIds(r.pollReplacements) && UniqueIds(r.pollAnswers) && UniqueIds(r.pollClosings)
    && (forall e :: e in r.pollReplacements ==> e.body.PollReplacement?)
    && (forall e :: e in r.pollAnswers ==> e.body.PollAnswer?)
  }

  lemma RelationsWellNamed(seen: seq<Event>, target: string)
    requires RelationIdsUnique(seen)
    ensures WellNamed(RelationsOf(seen, target))
  {
    assert forall e, f :: e in seen && f in seen && IsRelation(e) && IsRelation(f) && e.id == f.id ==>
      e == f || Clash(e, f);
  }

  /** An iteration order of the keys is one of the events they name. */
  lemma {:induction false} EventOrder(keys: seq<string>, all: set<string>, es: set<Event>) returns (order: seq<Event>)
    requires Lists(keys, all) && Keyed(all, es) && UniqueIds(es)
    ensures |order| == |keys| && forall i :: 0 <= i < |keys| ==> order[i].id == keys[i]
    ensures Lists(order, es)
    decreases |keys|
  {
    order := [];
    if keys == [] {
    } else {
      FrontLists(keys, all);
      assert Last(keys) in all;
      var e :| e in es && e.id == Last(keys);
      var rest := EventOrder(Front(keys), all - {Last(keys)}, es - {e});
      order := rest + [e];
    }
  }

  // ---- Building a message ----

  /** A cached reaction and the event it was made from. */
  predicate ShowsReaction(v: CachedReaction, e: Event) {
    e.body.Annotation? && v == CachedReaction(e.sender, e.body.emoji)
  }

  lemma ReactionOrder(m: map<string, CachedReaction>, keys: seq<string>, values: seq<CachedReaction>, es: set<Event>)
    returns (order: seq<Event>)
    requires Lists(keys, m.Keys) && ReactionsMirror(m, es) && UniqueIds(es)
    requires |values| == |keys| && forall i :: 0 <= i < |keys| ==> keys[i] in m && values[i] == m[keys[i]]
    ensures Lists(order, es) && |order| == |values|
    ensures forall i :: 0 <= i < |order| ==> ShowsReaction(values[i], order[i])
  {
    order := EventOrder(keys, m.Keys, es);
    assert forall i :: 0 <= i < |order| ==> order[i] in es;
  }

  method ApplyReactions(c: CachedMessage, m: Message, ghost es: set<Event>)
    returns (r: Message, ghost order: seq<Event>)
    requires ReactionsMirror(c.reactions, es) && UniqueIds(es)
    ensures Lists(order, es) && r == m.(reactions := m.reactions + Map(ToReaction(m), order))
    ensures HasReactions(es, m, r) && r == m.(reactions := r.reactions)
  {
    var keys, values := IterateMap(c.reactions);
    order := ReactionOrder(c.reactions, keys, values, es);
    r := PushReactions(m, values, order);
  }

  /** The loop over the cached reactions. */
  method PushReactions(m: Message, values: seq<CachedReaction>, ghost order: seq<Event>) returns (r: Message)
    requires |order| == |values| && forall i :: 0 <= i < |order| ==> ShowsReaction(values[i], order[i])
    ensures r == m.(reactions := m.reactions + Map(ToReaction(m), order))
  {
    r := m;
    for k := 0 to |values|
      invariant r == m.(reactions := m.reactions + Map(ToReaction(m), order[..k]))
    {
      assert ShowsReaction(values[k], order[k]);
      AppendNext(m.reactions, ToReaction(m), order, k);
      r := r.(reactions := r.reactions + [Reaction(r.messageId, r.roomId, values[k].emoji, values[k].userId)]);
    }
    assert order[..|values|] == order;
  }

  lemma AppendNext(base: seq<Reaction>, f: Event -> Reaction, order: seq<Event>, k: nat)
    requires k < |order|
    ensures base + Map(f, order[..k]) + [f(order[k])] == base + Map(f, order[..k + 1])
  {
    MapPrefixStep(f, order, k);
  }

  const REPLACEMENT_TIME: CachedReplacement -> int := (r: CachedReplacement) => r.timestamp

  method ApplyReplacements(c: CachedMessage, m: Message, ghost es: set<Event>)
    returns (r: Message, ghost latest: Option<Event>)
    requires ReplacementsMirror(c.replacements, es) && UniqueIds(es)
    ensures es == {} ==> r == m
    ensures es != {} ==> latest.Some? && IsLatest(latest.value, es) && latest.value.body.MessageReplacement?
                         && r == m.(content := latest.value.body.newContent, edited := true)
  {
    var keys, values := IterateMap(c.replacements);
    ghost var order := ReplacementOrder(c.replacements, keys, values, es);
    var sorted := SortByKey(REPLACEMENT_TIME, values);
    ListedNone(order, es);
    r, latest := m, None;
    if sorted != [] {
      r := r.(content := Some(Last(sorted).newContent), edited := true);
      ghost var event := LatestShown(values, order, sorted, es);
      latest := Some(event);
    }
  }

  /** A cached replacement and the event it was made from. */
  predicate Shows(v: CachedReplacement, e: Event) {
    e.body.MessageReplacement? && e.body.newContent == Some(v.newContent) && v.timestamp == e.timestamp
  }

  lemma ReplacementOrder(
    m: map<string, CachedReplacement>, keys: seq<string>, values: seq<CachedReplacement>, es: set<Event>)
    returns (order: seq<Event>)
    requires Lists(keys, m.Keys) && ReplacementsMirror(m, es) && UniqueIds(es)
    requires |values| == |keys| && forall i :: 0 <= i < |keys| ==> keys[i] in m && values[i] == m[keys[i]]
    ensures Lists(order, es) && |order| == |values|
    ensures forall i :: 0 <= i < |order| ==> Shows(values[i], order[i])
  {
    order := EventOrder(keys, m.Keys, es);
    assert forall i :: 0 <= i < |order| ==> order[i] in es;
  }

  lemma LatestShown(values: seq<CachedReplacement>, order: seq<Event>, sorted: seq<CachedReplacement>, es: set<Event>)
    returns (latest: Event)
    requires Lists(order, es) && |order| == |values| && forall i :: 0 <= i < |order| ==> Shows(values[i], order[i])
    requires SortedBy(REPLACEMENT_TIME, sorted) && multiset(sorted) == multiset(values) && sorted != []
    ensures IsLatest(latest, es) && Shows(Last(sorted), latest)
  {
    var i := LatestValue(values, sorted);
    latest := order[i];
    assert order[i] in order;
    forall f | f in es
      ensures f.timestamp <= latest.timestamp
    {
      assert f in order;
      var j :| 0 <= j < |order| && order[j] == f;
      assert Shows(values[j], order[j]) && Shows(values[i], order[i]);
      assert REPLACEMENT_TIME(values[j]) <= REPLACEMENT_TIME(values[i]);
    }
  }

  lemma ListedNone(order: seq<Event>, es: set<Event>)
    requires Lists(order, es)
    ensures order == [] <==> es == {}
  {
    if e :| e in es {
      assert e in order;
    }
    if order != [] {
      assert order[0] in order;
    }
  }

  /** The last value after sorting is one with the greatest timestamp. */
  lemma LatestValue(values: seq<CachedReplacement>, sorted: seq<CachedReplacement>) returns (i: nat)
    requires SortedBy(REPLACEMENT_TIME, sorted) && multiset(sorted) == multiset(values) && sorted != []
    ensures i < |values| && values[i] == Last(sorted)
    ensures forall j :: 0 <= j < |values| ==> REPLACEMENT_TIME(values[j]) <= REPLACEMENT_TIME(values[i])
  {
    assert Last(sorted) in multiset(values);
    i :| 0 <= i < |values| && values[i] == Last(sorted);
    forall j | 0 <= j < |values|
      ensures REPLACEMENT_TIME(values[j]) <= REPLACEMENT_TIME(values[i])
    {
      assert values[j] in multiset(sorted);
    }
  }

  /** The events of a poll relation map, sorted by time. */
  method SortedEvents(m: map<string, Event>, ghost es: set<Event>) returns (sorted: seq<Event>)
    requires EventsMirror(m, es) && UniqueIds(es)
    ensures Lists(sorted, es) && SortedBy(BY_TIME, sorted)
  {
    var keys, values := IterateMap(m);
    ghost var order := EventOrder(keys, m.Keys, es);
    assert forall i :: 0 <= i < |order| ==> order[i] in es;
    assert values == order;
    sorted := SortByKey(BY_TIME, values);
    ListingFromPermutation(values, sorted, es);
  }

  method ApplyPollReplacements(c: CachedMessage, cell: PollCell, ghost es: set<Event>)
    requires EventsMirror(c.pollReplacements, es) && UniqueIds(es) && forall e :: e in es ==> e.body.PollReplacement?
    modifies cell
    ensures IsBallot(es, old(cell.content), cell.content)
  {
    var sorted := SortedEvents(c.pollReplacements, es);
    if sorted != [] {
      assert Last(sorted) in sorted;
      assert IsLatest(Last(sorted), es) by {
        assert forall i :: 0 <= i < |sorted| ==> BY_TIME(sorted[i]) <= BY_TIME(Last(sorted));
      }
      var _ := ReplaceContent(cell, Last(sorted).body.newStart);
    }
  }

  lemma FoldPrefixStep(poll: Poll, order: seq<Event>, k: nat)
    requires k < |order| && order[k].body.PollAnswer?
    ensures Fold(poll, Map(ToResponse(), order[..k + 1])) ==
            Answered(Fold(poll, Map(ToResponse(), order[..k])), order[k].sender, order[k].body.answers)
  {
    MapPrefixStep(ToResponse(), order, k);
    assert Front(Map(ToResponse(), order[..k + 1])) == Map(ToResponse(), order[..k]);
  }

  method ApplyPollResponses(c: CachedMessage, cell: PollCell, ghost es: set<Event>) returns (ghost order: seq<Event>)
    requires EventsMirror(c.pollAnswers, es) && UniqueIds(es) && forall e :: e in es ==> e.body.PollAnswer?
    modifies cell
    ensures Lists(order, es) && SortedBy(BY_TIME, order)
    ensures cell.content == Fold(old(cell.content), Map(ToResponse(), order))
  {
    var sorted := SortedEvents(c.pollAnswers, es);
    for k := 0 to |sorted|
      invariant cell.content == Fold(old(cell.content), Map(ToResponse(), sorted[..k]))
    {
      assert sorted[k] in sorted;
      FoldPrefixStep(old(cell.content), sorted, k);
      AddAnswer(cell, sorted[k].sender, sorted[k].body.answers);
    }
    assert sorted[..|sorted|] == sorted;
    order := sorted;
  }

  method BuildPoll(c: CachedMessage, original: Message, ghost rel: Relations) returns (m: Message)
    requires WellNamed(rel) && Mirrors(c, rel)
    requires !original.isEncrypted && original.content.Some? && original.content.value.PollContent?
    ensures Rendering(rel, original, m)
  {
    ghost var poll := original.content.value.poll;
    var cell := new PollCell(original.content.value.poll);
    ApplyPollReplacements(c, cell, rel.pollReplacements);
    ghost var ballot := cell.content;
    ghost var order := ApplyPollResponses(c, cell, rel.pollAnswers);
    if c.pollClosings != map[] {
      cell.content := cell.content.(completed := true);
    }
    assert IsPollCount(rel, poll, ballot, order, cell.content) by {
      FoldSameBallot(ballot, Map(ToResponse(), order));
      MapEmptyIff(c.pollClosings, rel.pollClosings);
    }
    m := original.(content := Some(PollContent(cell.content)));
    ghost var reactionOrder;
    m, reactionOrder := ApplyReactions(c, m, rel.annotations);
    assert Map(ToReaction(original), reactionOrder) ==
           Map(ToReaction(original.(content := Some(PollContent(cell.content)))), reactionOrder);
  }

  lemma MapEmptyIff(m: map<string, Event>, es: set<Event>)
    requires EventsMirror(m, es)
    ensures m == map[] <==> es == {}
  {
    if m != map[] {
      var k :| k in m.Keys;
    }
  }

  method BuildRemoved(c: CachedMessage, original: Message, ghost rel: Relations) returns (m: Message)
    requires Mirrors(c, rel)
    requires !original.isEncrypted && original.content.Some? && original.content.value.Removed?
    ensures Rendering(rel, original, m)
  {
    m := original;
    if c.redaction.Some? {
      m := m.(content := Some(Removed(c.redaction.value.body.reason)));
    }
  }

  method BuildOther(c: CachedMessage, original: Message, ghost rel: Relations) returns (m: Message)
    requires WellNamed(rel) && Mirrors(c, rel)
    requires !original.isEncrypted
    requires original.content.Some? ==> !original.content.value.PollContent? && !original.content.value.Removed?
    ensures Rendering(rel, original, m)
  {
    var reacted;
    ghost var order, latest;
    reacted, order := ApplyReactions(c, original, rel.annotations);
    m, latest := ApplyReplacements(c, reacted, rel.replacements);
  }

  method BuildFromOriginal(c: CachedMessage, original: Message, ghost rel: Relations)
    returns (m: Message, cached: CachedMessage)
    requires WellNamed(rel) && Mirrors(c, rel) && !original.isEncrypted
    ensures Rendering(rel, original, m)
    ensures cached == c.(original := Some(original))
  {
    cached := c.(original := Some(original));
    match original.content
    case Some(Removed(_)) => m := BuildRemoved(cached, original, rel);
    case Some(PollContent(_)) => m := BuildPoll(cached, original, rel);
    case _ => m := BuildOther(cached, original, rel);
  }
}
