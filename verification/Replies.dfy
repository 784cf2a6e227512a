/**
 * What is to be seen of the message an event produces, kind by kind and in terms of the events seen before
 * (src/memory_cache.rs). Nothing here refers to how a message is assembled.
 */
module Replies {
  import opened Collections
  import opened Polls
  import opened Timeline

  // ---- The claims ----

  predicate Edits(f: Event, id: string) {
    f.body.MessageReplacement? && f.body.target == id && f.body.newContent.Some?
  }

  predicate ReactsTo(f: Event, id: string) {
    f.body.Annotation? && f.body.target == id
  }

  predicate ReplacesPoll(f: Event, id: string) {
    f.body.PollReplacement? && f.body.target == id
  }

  predicate AnswersPoll(f: Event, id: string) {
    f.body.PollAnswer? && f.body.target == id
  }

  predicate ClosesPoll(f: Event, id: string) {
    f.body.PollClosed? && f.body.target == id
  }

  /** The redaction seen last gives the reason; there is nothing else to see. */
  ghost predicate TellsRemoved(seen: seq<Event>, m: Message) {
    && m.reactions == [] && !m.edited && m.content.Some? && m.content.value.Removed?
    && ((forall f :: f in seen ==> !(f.body.Redaction? && f.body.target == m.messageId)) ==>
          m.content == Some(Removed(None)))
    && forall k :: 0 <= k < |seen| && seen[k].body.Redaction? && seen[k].body.target == m.messageId
         && (forall j :: k < j < |seen| ==> !(seen[j].body.Redaction? && seen[j].body.target == m.messageId))
         ==> m.content == Some(Removed(seen[k].body.reason))
  }

  /** Without an edit the content is the original one, otherwise that of an edit with the greatest timestamp. */
  ghost predicate TellsContent(seen: seq<Event>, original: Option<Content>, m: Message) {
    if exists f :: f in seen && Edits(f, m.messageId) then
      && m.edited
      && exists f :: f in seen && Edits(f, m.messageId) && m.content == f.body.newContent
                     && forall g :: g in seen && Edits(g, m.messageId) ==> g.timestamp <= f.timestamp
    else m.content == original && !m.edited
  }

  /** As many reactions as there are annotations, each shown with its emoji and user. */
  ghost predicate TellsReactions(seen: seq<Event>, m: Message) {
    && |m.reactions| == |set f | f in seen && ReactsTo(f, m.messageId)|
    && (forall f :: f in seen && ReactsTo(f, m.messageId) ==>
          Reaction(m.messageId, m.roomId, f.body.emoji, f.sender) in m.reactions)
    && (forall r :: r in m.reactions ==> exists f :: f in seen && ReactsTo(f, m.messageId)
                                            && r == Reaction(m.messageId, m.roomId, f.body.emoji, f.sender))
  }

  /** The poll asks what the start asks, whoever has voted; a start of unknown kind says nothing about the type. */
  predicate AsksThat(q: Poll, start: PollStart) {
    && q.question == start.question
    && q.maxSelections == (if start.maxSelections <= 0xFFFF_FFFF then start.maxSelections else 0xFFFF_FFFF)
    && |q.options| == |start.answers|
    && (forall i :: 0 <= i < |q.options| ==>
          q.options[i].id == start.answers[i].id && q.options[i].text == start.answers[i].text)
    && (start.kind.Disclosed? ==> q.pollType == TypeDisclosed)
    && (start.kind.Undisclosed? ==> q.pollType == TypeUndisclosed)
  }

  /** The poll asks what its newest replacement asks, or the start without one, and is complete iff an end was seen. */
  ghost predicate TellsPoll(seen: seq<Event>, start: PollStart, m: Message) {
    && m.content.Some? && m.content.value.PollContent? && !m.edited
    && (m.content.value.poll.completed <==> exists f :: f in seen && ClosesPoll(f, m.messageId))
    && if exists f :: f in seen && ReplacesPoll(f, m.messageId) then
         exists f :: f in seen && ReplacesPoll(f, m.messageId) && AsksThat(m.content.value.poll, f.body.newStart)
                     && forall g :: g in seen && ReplacesPoll(g, m.messageId) ==> g.timestamp <= f.timestamp
       else AsksThat(m.content.value.poll, start)
  }

  /** The answer counts for its user: no other answer of the same user is newer. */
  ghost predicate Newest(seen: seq<Event>, id: string, f: Event) {
    && f in seen && AnswersPoll(f, id)
    && forall g :: g in seen && AnswersPoll(g, id) && g.sender == f.sender ==> g.timestamp <= f.timestamp
  }

  /** A user is on an option iff that user's newest answer votes for it. */
  ghost predicate TellsVotes(seen: seq<Event>, id: string, q: Poll) {
    forall i, u :: 0 <= i < |q.options| ==>
      (u in q.options[i].voters <==> exists f :: Newest(seen, id, f) && f.sender == u && Selects(q, f.body.answers, i))
  }

  predicate Ordinary(content: Option<Content>) {
    content.Some? ==> content.value.Plain? || content.value.MembershipChange?
  }

  /** What is to be seen of the message of `e`, given the events seen before it. */
  ghost predicate Tells(room: string, seen: seq<Event>, e: Event, m: Message) {
    && m.messageId == e.id && m.roomId == room && m.senderId == e.sender && m.timestamp == e.timestamp
    && (m.isEncrypted <==> e.body.Undecryptable?)
    && match e.body
       case RoomMessage(content, details) =>
         m.details == details
         && (Ordinary(content) ==> TellsContent(seen, content, m) && TellsReactions(seen, m))
       case RedactedMessage => m.details == "" && TellsRemoved(seen, m)
       case NewPoll(start) => m.details == "" && TellsPoll(seen, start, m) && TellsReactions(seen, m)
       case Membership(change, user) =>
         m.details == "" && TellsContent(seen, Some(MembershipChange(change, user)), m) && TellsReactions(seen, m)
       case Undecryptable => m.details == "" && m.content == None && m.reactions == [] && !m.edited
       case _ => false
  }

  // ---- Which events produce a message ----

  predicate IsMessage(e: Event) {
    || e.body.RoomMessage? || e.body.RedactedMessage? || e.body.Membership? || e.body.Undecryptable?
    || (e.body.NewPoll? && !e.body.start.kind.Custom?)
  }

  lemma ProducesIff(room: string, e: Event)
    ensures Produce(room, e).Produces? <==> IsMessage(e)
    ensures Produce(room, e).Breaks? <==> e.body.NewPoll? && e.body.start.kind.Custom?
  {
  }

  // ---- The proofs ----

  lemma {:induction false} LastRedactionAt(seen: seq<Event>, target: string, k: nat)
    requires k < |seen| && seen[k].body.Redaction? && seen[k].body.target == target
    requires forall j :: k < j < |seen| ==> !(seen[j].body.Redaction? && seen[j].body.target == target)
    ensures LastRedaction(seen, target) == Some(seen[k])
  {
    if k < |seen| - 1 {
      assert forall j :: 0 <= j < |seen| - 1 ==> Front(seen)[j] == seen[j];
      assert Last(seen) == seen[|seen| - 1];
      LastRedactionAt(Front(seen), target, k);
    }
  }

  lemma RemovedTells(seen: seq<Event>, base: Message, m: Message)
    requires Rendered(seen, base, m) && !base.isEncrypted && base.content == Some(Removed(None))
    requires base.reactions == [] && !base.edited
    ensures TellsRemoved(seen, m)
  {
    forall k | 0 <= k < |seen| && seen[k].body.Redaction? && seen[k].body.target == m.messageId
      && (forall j :: k < j < |seen| ==> !(seen[j].body.Redaction? && seen[j].body.target == m.messageId))
      ensures m.content == Some(Removed(seen[k].body.reason))
    {
      LastRedactionAt(seen, m.messageId, k);
    }
  }

  lemma ReactionShown(base: Message, m: Message, order: seq<Event>, f: Event)
    requires base.reactions == [] && m.reactions == base.reactions + Map(ToReaction(base), order)
    requires f in order && f.body.Annotation?
    ensures Reaction(base.messageId, base.roomId, f.body.emoji, f.sender) in m.reactions
  {
    var i :| 0 <= i < |order| && order[i] == f;
    assert m.reactions[i] == ToReaction(base)(f);
  }

  lemma ReactionFrom(base: Message, m: Message, order: seq<Event>, r: Reaction) returns (f: Event)
    requires base.reactions == [] && m.reactions == base.reactions + Map(ToReaction(base), order)
    requires r in m.reactions && forall f :: f in order ==> f.body.Annotation?
    ensures f in order && r == Reaction(base.messageId, base.roomId, f.body.emoji, f.sender)
  {
    var i :| 0 <= i < |m.reactions| && m.reactions[i] == r;
    f := order[i];
    assert f in order;
  }

  lemma ReactionsTell(seen: seq<Event>, base: Message, m: Message)
    requires HasReactions(Annotations(seen, base.messageId), base, m) && base.reactions == []
    requires m.messageId == base.messageId && m.roomId == base.roomId
    ensures TellsReactions(seen, m)
  {
    var known := Annotations(seen, base.messageId);
    var order :| Lists(order, known) && m.reactions == base.reactions + Map(ToReaction(base), order);
    ListsSize(order, known);
    assert known == set f | f in seen && ReactsTo(f, m.messageId);
    forall f | f in seen && ReactsTo(f, m.messageId)
      ensures Reaction(m.messageId, m.roomId, f.body.emoji, f.sender) in m.reactions
    {
      ReactionShown(base, m, order, f);
    }
    forall r | r in m.reactions
      ensures exists f :: f in seen && ReactsTo(f, m.messageId)
                          && r == Reaction(m.messageId, m.roomId, f.body.emoji, f.sender)
    {
      var f := ReactionFrom(base, m, order, r);
    }
  }

  lemma ContentTells(seen: seq<Event>, base: Message, m: Message)
    requires HasReplacement(Replacements(seen, base.messageId), base, m) && !base.edited
    requires m.messageId == base.messageId
    ensures TellsContent(seen, base.content, m)
  {
    var edits := Replacements(seen, base.messageId);
    assert forall f :: f in edits <==> f in seen && Edits(f, m.messageId);
    if edits != {} {
      var f :| IsLatest(f, edits) && f.body.MessageReplacement? && m.content == f.body.newContent;
      assert f in seen && Edits(f, m.messageId);
    }
  }

  lemma StartAsked(ballot: Poll, q: Poll, start: PollStart)
    requires ShowsStart(ballot, start) && SameBallot(ballot.(completed := q.completed), q)
    ensures AsksThat(q, start)
  {
  }

  /** What the poll shown is, and the ballot and answers it was counted from. */
  lemma PollParts(seen: seq<Event>, base: Message, start: PollStart, m: Message)
    returns (ballot: Poll, order: seq<Event>)
    requires Rendered(seen, base, m) && !base.isEncrypted && AssemblePollStart(start).Ok?
    requires base.content == Some(PollContent(AssemblePollStart(start).value))
    ensures m.content.Some? && m.content.value.PollContent? && m.edited == base.edited
    ensures HasReactions(Annotations(seen, base.messageId), base, m)
    ensures IsPollCount(RelationsOf(seen, base.messageId), AssemblePollStart(start).value, ballot, order,
                        m.content.value.poll)
  {
    var r, poll, q := RelationsOf(seen, base.messageId), AssemblePollStart(start).value, m.content.value.poll;
    assert HasPoll(r, poll, q);
    ballot, order :| IsPollCount(r, poll, ballot, order, q);
  }

  lemma ReplacedShows(poll: Poll, start: PollStart)
    ensures ShowsStart(Replaced(poll, start), start)
  {
  }

  lemma PollTells(seen: seq<Event>, base: Message, start: PollStart, m: Message)
    requires Rendered(seen, base, m) && !base.isEncrypted && !base.edited && AssemblePollStart(start).Ok?
    requires base.content == Some(PollContent(AssemblePollStart(start).value))
    ensures TellsPoll(seen, start, m)
  {
    var ballot, order := PollParts(seen, base, start, m);
    var poll, q := AssemblePollStart(start).value, m.content.value.poll;
    FoldSameBallot(ballot, Map(ToResponse(), order));
    var closings, news := PollClosings(seen, base.messageId), PollReplacements(seen, base.messageId);
    assert forall f :: f in closings <==> f in seen && ClosesPoll(f, m.messageId);
    assert forall f :: f in news <==> f in seen && ReplacesPoll(f, m.messageId);
    if news != {} {
      var f :| IsLatest(f, news) && f.body.PollReplacement? && ballot == Replaced(poll, f.body.newStart);
      ReplacedShows(poll, f.body.newStart);
      StartAsked(ballot, q, f.body.newStart);
    } else {
      StartAsked(poll, q, start);
    }
  }

  /** The message tells what the events seen say. */
  lemma MessageTells(room: string, seen: seq<Event>, e: Event, m: Message)
    requires Produce(room, e).Produces? && Rendered(seen, Produce(room, e).base, m)
    ensures Tells(room, seen, e, m)
  {
    var base := Produce(room, e).base;
    match e.body
    case RoomMessage(content, details) =>
      if Ordinary(content) {
        ContentTells(seen, base, m);
        ReactionsTell(seen, base, m);
      }
    case RedactedMessage => RemovedTells(seen, base, m);
    case NewPoll(start) =>
      PollTells(seen, base, start, m);
      ReactionsTell(seen, base, m);
    case Membership(change, user) =>
      ContentTells(seen, base, m);
      ReactionsTell(seen, base, m);
    case Undecryptable =>
  }

  // ---- Votes ----

  /** In an order by time, with distinct times, the newest answer of a user is the last one. */
  lemma NewestIsLast(seen: seq<Event>, id: string, order: seq<Event>, f: Event) returns (j: nat)
    requires Lists(order, PollAnswers(seen, id)) && SortedBy(BY_TIME, order)
    requires DistinctKeys(BY_TIME, PollAnswers(seen, id)) && Newest(seen, id, f)
    ensures LastIndex(Map(ToResponse(), order), f.sender) == j < |order| && order[j] == f
  {
    var responses := Map(ToResponse(), order);
    assert f in order;
    var x :| 0 <= x < |order| && order[x] == f;
    assert responses[x].user == f.sender;
    j := LastIndex(responses, f.sender);
    assert order[j] in order && responses[j].user == order[j].sender;
    assert BY_TIME(order[x]) <= BY_TIME(order[j]);
  }

  lemma LastIsNewest(seen: seq<Event>, id: string, order: seq<Event>, u: string, j: nat)
    requires Lists(order, PollAnswers(seen, id)) && SortedBy(BY_TIME, order)
    requires LastIndex(Map(ToResponse(), order), u) == j < |order|
    ensures Newest(seen, id, order[j]) && order[j].sender == u
  {
    var responses := Map(ToResponse(), order);
    assert order[j] in order && responses[j].user == order[j].sender;
    forall g | g in seen && AnswersPoll(g, id) && g.sender == u
      ensures g.timestamp <= order[j].timestamp
    {
      assert g in order;
      var x :| 0 <= x < |order| && order[x] == g;
      assert responses[x].user == u;
      assert x < j ==> BY_TIME(order[x]) <= BY_TIME(order[j]);
    }
  }

  lemma SelectsSame(p: Poll, q: Poll, answers: seq<string>, i: nat)
    requires SameBallot(p.(completed := q.completed), q) && i < |p.options|
    ensures Selects(p, answers, i) <==> Selects(q, answers, i)
  {
  }

  /** With distinct times the voters of each option are those whose newest answer votes for it. */
  lemma VotesTell(seen: seq<Event>, base: Message, start: PollStart, m: Message)
    requires Rendered(seen, base, m) && !base.isEncrypted && AssemblePollStart(start).Ok?
    requires base.content == Some(PollContent(AssemblePollStart(start).value))
    requires DistinctKeys(BY_TIME, PollAnswers(seen, base.messageId))
    ensures m.content.Some? && m.content.value.PollContent?
    ensures TellsVotes(seen, base.messageId, m.content.value.poll)
  {
    var ballot, order := PollParts(seen, base, start, m);
    var q, responses, id := m.content.value.poll, Map(ToResponse(), order), base.messageId;
    FoldSameBallot(ballot, responses);
    forall i, u | 0 <= i < |q.options|
      ensures u in q.options[i].voters <==>
              exists f :: Newest(seen, id, f) && f.sender == u && Selects(q, f.body.answers, i)
    {
      FoldClosedForm(ballot, responses, i);
      VoterTold(seen, id, ballot, q, order, u, i);
    }
  }

  lemma VoterTold(seen: seq<Event>, id: string, ballot: Poll, q: Poll, order: seq<Event>, u: string, i: nat)
    requires Lists(order, PollAnswers(seen, id)) && SortedBy(BY_TIME, order)
    requires DistinctKeys(BY_TIME, PollAnswers(seen, id))
    requires SameBallot(ballot.(completed := q.completed), q) && i < |q.options|
    ensures VotesFor(ballot, Map(ToResponse(), order), u, i) <==>
            exists f :: Newest(seen, id, f) && f.sender == u && Selects(q, f.body.answers, i)
  {
    var responses := Map(ToResponse(), order);
    var j := LastIndex(responses, u);
    if VotesFor(ballot, responses, u, i) {
      LastIsNewest(seen, id, order, u, j);
      assert order[j] in order;
      SelectsSame(ballot, q, responses[j].answers, i);
    }
    if f :| Newest(seen, id, f) && f.sender == u && Selects(q, f.body.answers, i) {
      var k := NewestIsLast(seen, id, order, f);
      SelectsSame(ballot, q, f.body.answers, i);
    }
  }
}
