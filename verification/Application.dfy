/** What the application shows after a redecryption, against how the messages must look (src/memory_cache.rs). */
module Application {
  import opened Collections
  import opened Polls
  import opened Timeline
  import opened RoomCache
  import opened Redecryption
  import PollAgreement

  /** The messages on display, by id. */
  type Shown = map<string, Message>

  /** How the application follows an event: a change names the fields that change, here content and encryption. */
  function Follow(shown: Shown, e: AppEvent): Shown {
    match e
    case MessageChanged(_, id, content) =>
      if id in shown then shown[id := shown[id].(content := Some(content), isEncrypted := false)] else shown
    case MessageRemoved(_, id) => shown - {id}
    case ReactionCreated(r) =>
      if r.messageId in shown then
        var m := shown[r.messageId];
        shown[r.messageId := m.(reactions := m.reactions + [Reaction(r.messageId, r.roomId, r.emoji, r.userId)])]
      else shown
  }

  function FollowAll(shown: Shown, events: seq<AppEvent>): Shown {
    if events == [] then shown else Follow(FollowAll(shown, Front(events)), Last(events))
  }

  lemma {:induction false} FollowConcat(shown: Shown, a: seq<AppEvent>, b: seq<AppEvent>)
    ensures FollowAll(shown, a + b) == FollowAll(FollowAll(shown, a), b)
    decreases |b|
  {
    if b == [] {
      assert a + b == a;
    } else {
      FollowConcat(shown, a, Front(b));
      assert Front(a + b) == a + Front(b) && Last(a + b) == Last(b);
    }
  }

  lemma FollowOne(shown: Shown, a: AppEvent)
    ensures FollowAll(shown, [a]) == Follow(shown, a)
  {
    assert Front([a]) == [] && Last([a]) == a;
  }

  lemma FollowTwo(shown: Shown, a: AppEvent, b: AppEvent)
    ensures FollowAll(shown, [a] + [b]) == Follow(Follow(shown, a), b)
  {
    FollowConcat(shown, [a], [b]);
    FollowOne(shown, a);
    FollowOne(Follow(shown, a), b);
  }

  // ---- A message that could be decrypted ----

  predicate IsRemoved(base: Message) {
    base.content.Some? && base.content.value.Removed?
  }

  predicate IsPoll(base: Message) {
    base.content.Some? && base.content.value.PollContent?
  }

  /** The reactions shown are those there are. */
  ghost predicate ReactionsRight(r: Relations, base: Message, shown: seq<Reaction>) {
    if IsRemoved(base) then shown == [] else HasReactions(r.annotations, base, base.(reactions := shown))
  }

  /** Nothing is to be shown of the message but its content and the reactions that are shown already. */
  ghost predicate ContentOnly(r: Relations, base: Message, shown: seq<Reaction>) {
    base.details == "" && ReactionsRight(r, base, shown) && (IsRemoved(base) || IsPoll(base) || r.replacements == {})
  }

  lemma ReactionCount(annotations: set<Event>, base: Message, m: Message)
    requires HasReactions(annotations, base, m)
    ensures |m.reactions| == |base.reactions| + |annotations|
  {
    var order :| Lists(order, annotations) && m.reactions == base.reactions + Map(ToReaction(base), order);
    ListsSize(order, annotations);
  }

  lemma ResolvedMessage(room: string, seen: seq<Event>, e: Event, sends: seq<AppEvent>) returns (m: Message)
    requires Produce(room, e).Produces? && Resolution(room, seen, e, sends)
    ensures Rendered(seen, Produce(room, e).base, m)
    ensures sends == [if m.content.Some? then MessageChanged(room, e.id, m.content.value)
                      else MessageRemoved(room, e.id)]
  {
    m :| Rendered(seen, Produce(room, e).base, m)
         && sends == [if m.content.Some? then MessageChanged(room, e.id, m.content.value)
                      else MessageRemoved(room, e.id)];
  }

  /** How the application shows an event that could not be decrypted, with the reactions that reached it since. */
  function Encrypted(room: string, e: Event, reactions: seq<Reaction>): Message {
    BaseMessage(room, e, None).(isEncrypted := true, reactions := reactions)
  }

  /**
   * The application is sent only the content of a decrypted message. It then shows the message as it must look
   * exactly if it has its reactions already, and the message was not edited and has no details.
   */
  lemma DecryptedShownIff(
    room: string, seen: seq<Event>, e: Event, base: Message, reactions: seq<Reaction>, shown: Shown,
    sends: seq<AppEvent>)
    requires Produce(room, e) == Produces(base) && !base.isEncrypted && Resolution(room, seen, e, sends)
    requires e.id in shown && shown[e.id] == Encrypted(room, e, reactions)
    ensures var after, r := FollowAll(shown, sends), RelationsOf(seen, e.id);
      && (e.id in after <==> base.content.Some? || r.replacements != {})
      && (e.id in after ==> (Rendered(seen, base, after[e.id]) <==> ContentOnly(r, base, reactions)))
  {
    var m := ResolvedMessage(room, seen, e, sends);
    FollowOne(shown, sends[0]);
    ContentIff(seen, base, m);
    if m.content.Some? {
      var c := FollowAll(shown, sends)[e.id];
      assert c == base.(details := "", content := m.content, reactions := reactions);
      ContentShownIff(RelationsOf(seen, e.id), base, m, c);
    }
  }

  lemma ContentIff(seen: seq<Event>, base: Message, m: Message)
    requires Rendered(seen, base, m) && !base.isEncrypted
    ensures m.content.Some? <==> base.content.Some? || Replacements(seen, base.messageId) != {}
  {
  }

  lemma ContentShownIff(r: Relations, base: Message, m: Message, c: Message)
    requires Rendering(r, base, m) && !base.isEncrypted && base.reactions == [] && !base.edited
    requires c == base.(details := "", content := m.content, reactions := c.reactions)
    ensures Rendering(r, base, c) <==> ContentOnly(r, base, c.reactions)
  {
    SameReactions(r.annotations, base, base.(reactions := c.reactions), c);
  }

  lemma SameReactions(annotations: set<Event>, base: Message, m: Message, n: Message)
    requires m.reactions == n.reactions
    ensures HasReactions(annotations, base, m) <==> HasReactions(annotations, base, n)
  {
  }

  // ---- The message a decrypted event relates to ----

  predicate TakesReactions(base: Message) {
    !base.isEncrypted && !IsRemoved(base)
  }

  predicate TakesReplacements(base: Message) {
    TakesReactions(base) && !IsPoll(base)
  }

  predicate TakesVotes(base: Message) {
    TakesReactions(base) && IsPoll(base)
  }

  /** The edit comes too late for what is shown, or it shows already. */
  ghost predicate OldEdit(replacements: set<Event>, e: Event, m: Message)
    requires e.body.MessageReplacement?
  {
    && replacements != {}
    && ((exists f :: f in replacements && e.timestamp <= f.timestamp) || m.content == e.body.newContent)
  }

  /** Both relations show the same ballot with the same votes. */
  ghost predicate SamePoll(r: Relations, t: Relations, poll: Poll) {
    exists b, c, x, y :: IsCount(r, poll, b, x) && IsCount(t, poll, c, y) && SameCount(b, c, x, y)
  }

  ghost predicate IsCount(r: Relations, poll: Poll, ballot: Poll, order: seq<Event>) {
    IsBallot(r.pollReplacements, poll, ballot) && Lists(order, r.pollAnswers) && SortedBy(BY_TIME, order)
  }

  ghost predicate SameCount(b: Poll, c: Poll, x: seq<Event>, y: seq<Event>) {
    SameBallot(b, c) && forall i :: 0 <= i < |c.options| ==>
                          SameVotes(c, Map(ToResponse(), x), Map(ToResponse(), y), i)
  }

  function Counted(ballot: Poll, order: seq<Event>, done: bool): Poll {
    Fold(ballot, Map(ToResponse(), order)).(completed := done)
  }

  lemma BallotUnvoted(rs: set<Event>, poll: Poll, b: Poll)
    requires IsBallot(rs, poll, b) && Unvoted(poll)
    ensures Unvoted(b) && b.completed == poll.completed
  {
  }

  lemma UnvotedSameBallot(b: Poll, c: Poll)
    requires Unvoted(b) && Unvoted(c) && SameBallot(b, c)
    ensures b == c
  {
    PollAgreement.SameBallotSameVoters(b, c);
  }

  /** A count of the old relations is one of the new ones exactly if both show the same and no end came. */
  lemma CountKeptIff(r: Relations, t: Relations, poll: Poll, q: Poll)
    requires DistinctTimes(r) && HasPoll(r, poll, q) && Unvoted(poll) && !poll.completed
    ensures HasPoll(t, poll, q) <==> SamePoll(r, t, poll) && q.completed == (t.pollClosings != {})
  {
    var b, x :| IsPollCount(r, poll, b, x, q);
    BallotUnvoted(r.pollReplacements, poll, b);
    if HasPoll(t, poll, q) {
      var c, y :| IsPollCount(t, poll, c, y, q);
      CountsAgreeIff(r, t, poll, b, c, x, y, q.completed, t.pollClosings != {});
      assert IsCount(r, poll, b, x) && IsCount(t, poll, c, y) && SameCount(b, c, x, y);
    }
    if SamePoll(r, t, poll) && q.completed == (t.pollClosings != {}) {
      var b', c, x', y :| IsCount(r, poll, b', x') && IsCount(t, poll, c, y) && SameCount(b', c, x', y);
      BallotDetermined(r.pollReplacements, poll, b, b');
      SortedListingStrict(BY_TIME, x, r.pollAnswers);
      SortedListingStrict(BY_TIME, x', r.pollAnswers);
      SortedListingUnique(BY_TIME, x, x', r.pollAnswers);
      CountsAgreeIff(r, t, poll, b, c, x, y, q.completed, t.pollClosings != {});
      assert IsPollCount(t, poll, c, y, q);
    }
  }

  lemma CountsAgreeIff(
    r: Relations, t: Relations, poll: Poll, b: Poll, c: Poll, x: seq<Event>, y: seq<Event>, d: bool, e: bool)
    requires IsCount(r, poll, b, x) && IsCount(t, poll, c, y) && Unvoted(poll) && !poll.completed
    ensures Counted(b, x, d) == Counted(c, y, e) <==> SameCount(b, c, x, y) && d == e
  {
    BallotUnvoted(r.pollReplacements, poll, b);
    BallotUnvoted(t.pollReplacements, poll, c);
    if SameBallot(b, c) {
      UnvotedSameBallot(b, c);
    }
    PollAgreement.FormsEqualIff(b, c, Map(ToResponse(), x), Map(ToResponse(), y), d, e);
  }

  /** What the application shows of a message after an event that relates to it was decrypted. */
  function WithReaction(room: string, e: Event, m: Message): Message {
    if !e.body.Annotation? then m
    else m.(reactions := m.reactions + [Reaction(e.body.target, room, e.body.emoji, e.sender)])
  }

  /** Produced messages are neither edited nor voted on. */
  predicate Fresh(base: Message) {
    !base.edited && (IsPoll(base) ==> Unvoted(base.content.value.poll) && !base.content.value.poll.completed)
  }

  /** What an event produces is fresh, unless it is a room message that carries a poll as its content. */
  lemma ProducedFresh(room: string, e: Event, base: Message)
    requires Produce(room, e) == Produces(base)
    requires e.body.RoomMessage? && e.body.content.Some? ==> !e.body.content.value.PollContent?
    ensures Fresh(base) && base.messageId == e.id && base.roomId == room && base.reactions == []
  {
    if e.body.NewPoll? {
      assert forall i :: 0 <= i < |e.body.start.answers| ==> FreshOptions(e.body.start.answers)[i].voters == [];
    }
  }

  /** Leaving the message as it is, but for the reaction, is what the decrypted event asks for. */
  ghost predicate Keeps(r: Relations, e: Event, base: Message, m: Message) {
    match e.body
    case Annotation(_, _) => TakesReactions(base) && e !in r.annotations
    case MessageReplacement(_, _) => TakesReplacements(base) ==> OldEdit(r.replacements, e, m)
    case PollReplacement(_, _) => TakesVotes(base) ==> SamePoll(r, Extended(r, e), base.content.value.poll)
    case PollAnswer(_, _) => TakesVotes(base) ==> SamePoll(r, Extended(r, e), base.content.value.poll)
    case PollClosed(_) => TakesVotes(base) ==> IsPoll(m) && m.content.value.poll.completed
    case Redaction(_, reason) => base.isEncrypted || !IsRemoved(base) || m.content == Some(Removed(reason))
    case _ => true
  }

  lemma OneMoreReaction(annotations: set<Event>, e: Event, base: Message, m: Message, n: Message)
    requires HasReactions(annotations, base, m) && e !in annotations
    requires n.reactions == m.reactions + [ToReaction(base)(e)]
    ensures HasReactions(annotations + {e}, base, n)
  {
    var order :| Lists(order, annotations) && m.reactions == base.reactions + Map(ToReaction(base), order);
    assert n.reactions == base.reactions + Map(ToReaction(base), order + [e]);
    assert Lists(order + [e], annotations + {e});
  }

  lemma ReactionKeptIff(annotations: set<Event>, e: Event, base: Message, m: Message, n: Message)
    requires HasReactions(annotations, base, m) && n.reactions == m.reactions + [ToReaction(base)(e)]
    ensures HasReactions(annotations + {e}, base, n) <==> e !in annotations
  {
    if e !in annotations {
      OneMoreReaction(annotations, e, base, m, n);
    } else {
      assert annotations + {e} == annotations;
      ReactionCount(annotations, base, m);
      if HasReactions(annotations, base, n) {
        ReactionCount(annotations, base, n);
      }
    }
  }

  lemma EditKeptIff(replacements: set<Event>, e: Event, base: Message, m: Message)
    requires HasReplacement(replacements, base, m) && e.body.MessageReplacement? && !base.edited
    ensures HasReplacement(replacements + {e}, base, m) <==> OldEdit(replacements, e, m)
  {
    var all := replacements + {e};
    if replacements != {} {
      var f :| IsLatest(f, replacements) && f.body.MessageReplacement? && m.content == f.body.newContent;
      if e.timestamp <= f.timestamp {
        assert IsLatest(f, all);
      } else {
        assert IsLatest(e, all);
      }
    }
  }

  lemma VotesKeptIff(r: Relations, e: Event, poll: Poll, q: Poll)
    requires DistinctTimes(r) && HasPoll(r, poll, q) && Unvoted(poll) && !poll.completed
    requires e.body.PollReplacement? || e.body.PollAnswer? || e.body.PollClosed?
    ensures HasPoll(Extended(r, e), poll, q) <==>
            if e.body.PollClosed? then q.completed else SamePoll(r, Extended(r, e), poll)
  {
    CountKeptIff(r, Extended(r, e), poll, q);
    var b, x :| IsPollCount(r, poll, b, x, q);
    if e.body.PollClosed? {
      assert IsCount(r, poll, b, x) && IsCount(Extended(r, e), poll, b, x) && SameCount(b, b, x, x);
    }
  }

  lemma SamePollRelations(r: Relations, t: Relations, poll: Poll, q: Poll)
    requires r.pollReplacements == t.pollReplacements && r.pollAnswers == t.pollAnswers
    requires r.pollClosings == t.pollClosings && HasPoll(r, poll, q)
    ensures HasPoll(t, poll, q)
  {
    var b, x :| IsPollCount(r, poll, b, x, q);
    assert IsPollCount(t, poll, b, x, q);
  }

  lemma EditRendered(r: Relations, e: Event, base: Message, m: Message)
    requires Rendering(r, base, m) && !base.edited && e.body.MessageReplacement? && e.body.newContent.Some?
    ensures Rendering(Extended(r, e), base, m) <==> Keeps(r, e, base, m)
  {
    var t := Extended(r, e);
    assert t == r.(replacements := r.replacements + {e});
    if TakesReplacements(base) {
      EditKeptIff(r.replacements, e, base, m);
    } else if TakesVotes(base) {
      SamePollRelations(r, t, base.content.value.poll, m.content.value.poll);
    }
  }

  lemma RedactionRendered(r: Relations, e: Event, base: Message, m: Message)
    requires Rendering(r, base, m) && e.body.Redaction?
    ensures Rendering(Extended(r, e), base, m) <==> Keeps(r, e, base, m)
  {
    if TakesVotes(base) {
      SamePollRelations(r, Extended(r, e), base.content.value.poll, m.content.value.poll);
    }
  }

  lemma ReactionRendered(r: Relations, room: string, e: Event, base: Message, m: Message)
    requires Rendering(r, base, m) && e.body.Annotation? && e.body.target == base.messageId && base.roomId == room
    ensures Rendering(Extended(r, e), base, WithReaction(room, e, m)) <==> Keeps(r, e, base, m)
  {
    if TakesReactions(base) {
      ReactionKeptIff(r.annotations, e, base, m, WithReaction(room, e, m));
    }
    if TakesVotes(base) {
      SamePollRelations(r, Extended(r, e), base.content.value.poll, m.content.value.poll);
    }
  }

  lemma PollEventRendered(r: Relations, e: Event, base: Message, m: Message)
    requires Rendering(r, base, m) && DistinctTimes(r) && Fresh(base)
    requires e.body.PollReplacement? || e.body.PollAnswer? || e.body.PollClosed?
    ensures Rendering(Extended(r, e), base, m) <==> Keeps(r, e, base, m)
  {
    if TakesVotes(base) {
      VotesKeptIff(r, e, base.content.value.poll, m.content.value.poll);
    }
  }

  /**
   * Of an event that relates to a shown message the application is sent at most a reaction. It then still shows the
   * message as it must look exactly if the event is a new reaction, or asks for nothing else.
   */
  lemma KeptIff(r: Relations, room: string, e: Event, base: Message, m: Message)
    requires Rendering(r, base, m) && DistinctTimes(r) && RelatesTo(e, base.messageId)
    requires Fresh(base) && base.roomId == room
    ensures Rendering(Extended(r, e), base, WithReaction(room, e, m)) <==> Keeps(r, e, base, m)
  {
    match e.body
    case Annotation(_, _) => ReactionRendered(r, room, e, base, m);
    case MessageReplacement(_, _) => EditRendered(r, e, base, m);
    case Redaction(_, _) => RedactionRendered(r, e, base, m);
    case _ => PollEventRendered(r, e, base, m);
  }

  /** One decrypted relation: what is shown of its target afterwards, and exactly when that is right. */
  lemma RelatedShownIff(
    room: string, seen: seq<Event>, e: Event, base: Message, shown: Shown, sends: seq<AppEvent>)
    requires Resolution(room, seen, e, sends) && RelatesTo(e, base.messageId) && e.id != base.messageId
    requires base.messageId in shown && Rendered(seen, base, shown[base.messageId])
    requires Fresh(base) && base.roomId == room && DistinctTimes(RelationsOf(seen, base.messageId))
    ensures var after, m := FollowAll(shown, sends), shown[base.messageId];
      && base.messageId in after && after[base.messageId] == WithReaction(room, e, m) && e.id !in after
      && (Rendered(seen + [e], base, after[base.messageId]) <==> Keeps(RelationsOf(seen, base.messageId), e, base, m))
  {
    FollowResolution(room, seen, e, base.messageId, shown, sends);
    RelationsExtend(seen, e, base.messageId);
    KeptIff(RelationsOf(seen, base.messageId), room, e, base, shown[base.messageId]);
  }

  /** The first edit of a message that the application shows is lost on it if it could not be decrypted at first. */
  lemma FirstEditNotShown(
    room: string, seen: seq<Event>, e: Event, base: Message, shown: Shown, sends: seq<AppEvent>)
    requires Resolution(room, seen, e, sends) && RelatesTo(e, base.messageId) && e.id != base.messageId
    requires base.messageId in shown && Rendered(seen, base, shown[base.messageId])
    requires Fresh(base) && base.roomId == room && DistinctTimes(RelationsOf(seen, base.messageId))
    requires e.body.MessageReplacement? && TakesReplacements(base) && Replacements(seen, base.messageId) == {}
    ensures var after := FollowAll(shown, sends);
      base.messageId in after && !Rendered(seen + [e], base, after[base.messageId])
  {
    RelatedShownIff(room, seen, e, base, shown, sends);
  }

  /** The sends for an event touch the message of its own id, and the message it is a reaction to. */
  lemma FollowResolution(room: string, seen: seq<Event>, e: Event, id: string, shown: Shown, sends: seq<AppEvent>)
    requires Resolution(room, seen, e, sends) && id in shown && e.id != id
    ensures var after := FollowAll(shown, sends);
      && id in after && after[id] == (if RelatesTo(e, id) then WithReaction(room, e, shown[id]) else shown[id])
      && (Produce(room, e).Silent? ==> e.id !in after)
  {
    if Produce(room, e).Produces? {
      var _ := ResolvedMessage(room, seen, e, sends);
      FollowOne(shown, sends[0]);
    } else if e.body.Annotation? {
      FollowTwo(shown, MessageRemoved(room, e.id), ReactionCreated(MetadataOf(room, e)));
    } else {
      FollowOne(shown, MessageRemoved(room, e.id));
    }
  }
}
