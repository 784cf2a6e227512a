/**
 * Room events, the messages they produce, and what a message must look like given the events seen before it.
 * The definitions here mention no cache: they are the reference the memory cache is proved against.
 */
module Timeline {
  import opened Collections
  import opened Polls

  datatype Content =
    | Removed(reason: Option<string>)
    | PollContent(poll: Poll)
    | MembershipChange(change: string, affectedUser: string)
    | Plain(body: string)

  datatype Reaction = Reaction(messageId: string, roomId: string, emoji: string, userId: string)

  /** `details` stands for the fields that are only copied: replied-to message, mentions, thread. */
  datatype Message = Message(
    messageId: string,
    roomId: string,
    senderId: string,
    timestamp: int,
    isEncrypted: bool,
    content: Option<Content>,
    details: string,
    reactions: seq<Reaction>,
    edited: bool)

  /** The event types the room cache distinguishes; `target` is the event a relation relates to. */
  datatype Body =
    | RoomMessage(content: Option<Content>, details: string)
    | RedactedMessage
    | NewPoll(start: PollStart)
    | Membership(change: string, affectedUser: string)
    | Undecryptable
    | MessageReplacement(target: string, newContent: Option<Content>)
    | Annotation(target: string, emoji: string)
    | PollReplacement(target: string, newStart: PollStart)
    | PollAnswer(target: string, answers: seq<string>)
    | PollClosed(target: string)
    | Redaction(target: string, reason: Option<string>)
    | Malformed
    | NoEffect

  datatype Event = Event(id: string, sender: string, timestamp: int, wasEncrypted: bool, body: Body)

  // ---- Which events produce a message ----

  datatype Production = Produces(base: Message) | Silent | Breaks

  function BaseMessage(room: string, e: Event, content: Option<Content>): Message {
    Message(e.id, room, e.sender, e.timestamp, false, content, "", [], false)
  }

  /** The message of an event before relations; a poll of unknown kind breaks the processing. */
  function Produce(room: string, e: Event): Production {
    match e.body
    case RoomMessage(content, details) => Produces(BaseMessage(room, e, content).(details := details))
    case RedactedMessage => Produces(BaseMessage(room, e, Some(Removed(None))))
    case NewPoll(start) =>
      (match AssemblePollStart(start)
       case Ok(poll) => Produces(BaseMessage(room, e, Some(PollContent(poll))))
       case Err(_) => Breaks)
    case Membership(change, user) => Produces(BaseMessage(room, e, Some(MembershipChange(change, user))))
    case Undecryptable => Produces(BaseMessage(room, e, None).(isEncrypted := true))
    case _ => Silent
  }

  // ---- The relations of a message among the events seen ----

  function Replacements(seen: seq<Event>, target: string): set<Event> {
    set e | e in seen && e.body.MessageReplacement? && e.body.target == target && e.body.newContent.Some?
  }

  function Annotations(seen: seq<Event>, target: string): set<Event> {
    set e | e in seen && e.body.Annotation? && e.body.target == target
  }

  function PollReplacements(seen: seq<Event>, target: string): set<Event> {
    set e | e in seen && e.body.PollReplacement? && e.body.target == target
  }

  function PollAnswers(seen: seq<Event>, target: string): set<Event> {
    set e | e in seen && e.body.PollAnswer? && e.body.target == target
  }

  function PollClosings(seen: seq<Event>, target: string): set<Event> {
    set e | e in seen && e.body.PollClosed? && e.body.target == target
  }

  predicate Redacts(e: Event, target: string) {
    e.body.Redaction? && e.body.target == target
  }

  /** The redaction of `target` seen last. */
  function LastRedaction(seen: seq<Event>, target: string): (r: Option<Event>)
    ensures r.None? ==> forall e :: e in seen ==> !Redacts(e, target)
    ensures r.Some? ==> r.value in seen && Redacts(r.value, target)
  {
    if seen == [] then None
    else if Redacts(Last(seen), target) then Some(Last(seen))
    else
      assert seen == Front(seen) + [Last(seen)];
      LastRedaction(Front(seen), target)
  }

  datatype Relations = Relations(
    replacements: set<Event>,
    annotations: set<Event>,
    pollReplacements: set<Event>,
    pollAnswers: set<Event>,
    pollClosings: set<Event>,
    redaction: Option<Event>)

  function RelationsOf(seen: seq<Event>, target: string): Relations {
    Relations(Replacements(seen, target), Annotations(seen, target), PollReplacements(seen, target),
              PollAnswers(seen, target), PollClosings(seen, target), LastRedaction(seen, target))
  }

  predicate IsRelation(e: Event) {
    || (e.body.MessageReplacement? && e.body.newContent.Some?)
    || e.body.Annotation?
    || e.body.PollReplacement?
    || e.body.PollAnswer?
    || e.body.PollClosed?
  }

  predicate RelatesTo(e: Event, target: string) {
    (IsRelation(e) || e.body.Redaction?) && e.body.target == target
  }

  /** Two different relations with one id. */
  predicate Clash(e: Event, f: Event) {
    IsRelation(e) && IsRelation(f) && e.id == f.id && e != f
  }

  /** An id names one relation, however often the relation is seen. */
  ghost predicate RelationIdsUnique(seen: seq<Event>) {
    forall e, f {:trigger Clash(e, f)} :: e in seen && f in seen ==> !Clash(e, f)
  }

  const BY_TIME: Event -> int := (e: Event) => e.timestamp

  // ---- What the message must look like ----

  function ToReaction(base: Message): Event -> Reaction {
    (e: Event) => Reaction(base.messageId, base.roomId, if e.body.Annotation? then e.body.emoji else "", e.sender)
  }

  function ToResponse(): Event -> Response {
    (e: Event) => Response(e.sender, if e.body.PollAnswer? then e.body.answers else [])
  }

  ghost predicate IsLatest(e: Event, es: set<Event>) {
    e in es && forall f :: f in es ==> f.timestamp <= e.timestamp
  }

  /** One reaction for every annotation, in some order. */
  ghost predicate HasReactions(annotations: set<Event>, base: Message, m: Message) {
    exists order: seq<Event> ::
      Lists(order, annotations) && m.reactions == base.reactions + Map(ToReaction(base), order)
  }

  /** The content of a latest replacement, if there is one. */
  ghost predicate HasReplacement(replacements: set<Event>, base: Message, m: Message) {
    if replacements == {} then m.content == base.content && m.edited == base.edited
    else m.edited && exists e ::
           IsLatest(e, replacements) && e.body.MessageReplacement? && m.content == e.body.newContent
  }

  ghost predicate IsBallot(replacements: set<Event>, poll: Poll, ballot: Poll) {
    if replacements == {} then ballot == poll
    else exists e :: IsLatest(e, replacements) && e.body.PollReplacement? && ballot == Replaced(poll, e.body.newStart)
  }

  /** `q` is the ballot with the answers counted in this time order. */
  ghost predicate IsPollCount(r: Relations, poll: Poll, ballot: Poll, order: seq<Event>, q: Poll) {
    && IsBallot(r.pollReplacements, poll, ballot)
    && Lists(order, r.pollAnswers) && SortedBy(BY_TIME, order)
    && q == Fold(ballot, Map(ToResponse(), order)).(completed := poll.completed || r.pollClosings != {})
  }

  /** A latest ballot, with all answers counted in time order. */
  ghost predicate HasPoll(r: Relations, poll: Poll, q: Poll) {
    exists ballot, order :: IsPollCount(r, poll, ballot, order, q)
  }

  /** `m` is `base` rendered with these relations. */
  ghost predicate Rendering(r: Relations, base: Message, m: Message) {
    if base.isEncrypted then m == base else
    && m == base.(content := m.content, reactions := m.reactions, edited := m.edited)
    && match base.content
       case Some(Removed(reason)) =>
         && m.reactions == base.reactions && m.edited == base.edited
         && m.content == Some(Removed(if r.redaction.Some? && r.redaction.value.body.Redaction?
                                      then r.redaction.value.body.reason else reason))
       case Some(PollContent(poll)) =>
         && HasReactions(r.annotations, base, m) && m.edited == base.edited
         && m.content.Some? && m.content.value.PollContent? && HasPoll(r, poll, m.content.value.poll)
       case _ => HasReactions(r.annotations, base, m) && HasReplacement(r.replacements, base, m)
  }

  /** `m` is `base` rendered with the relations to it among the events seen. */
  ghost predicate Rendered(seen: seq<Event>, base: Message, m: Message) {
    Rendering(RelationsOf(seen, base.messageId), base, m)
  }

  // ---- A rendering is determined by the relations ----

  ghost predicate DistinctTimes(r: Relations) {
    DistinctKeys(BY_TIME, r.replacements) && DistinctKeys(BY_TIME, r.pollReplacements)
      && DistinctKeys(BY_TIME, r.pollAnswers)
  }

  ghost predicate SameUpToReactionOrder(m: Message, n: Message) {
    m.(reactions := []) == n.(reactions := []) && multiset(m.reactions) == multiset(n.reactions)
  }

  lemma LatestUnique(e: Event, f: Event, es: set<Event>)
    requires IsLatest(e, es) && IsLatest(f, es) && DistinctKeys(BY_TIME, es)
    ensures e == f
  {
    assert BY_TIME(e) == BY_TIME(f);
  }

  lemma ReactionsDetermined(annotations: set<Event>, base: Message, m: Message, n: Message)
    requires HasReactions(annotations, base, m) && HasReactions(annotations, base, n)
    ensures multiset(m.reactions) == multiset(n.reactions)
  {
    var a :| Lists(a, annotations) && m.reactions == base.reactions + Map(ToReaction(base), a);
    var b :| Lists(b, annotations) && n.reactions == base.reactions + Map(ToReaction(base), b);
    ListingsPermute(a, b, annotations);
    MapPermutes(ToReaction(base), a, b);
  }

  lemma ReplacementDetermined(rs: set<Event>, base: Message, m: Message, n: Message)
    requires DistinctKeys(BY_TIME, rs) && HasReplacement(rs, base, m) && HasReplacement(rs, base, n)
    ensures m.content == n.content && m.edited == n.edited
  {
    if rs != {} {
      var e :| IsLatest(e, rs) && e.body.MessageReplacement? && m.content == e.body.newContent;
      var f :| IsLatest(f, rs) && f.body.MessageReplacement? && n.content == f.body.newContent;
      LatestUnique(e, f, rs);
    }
  }

  lemma BallotDetermined(rs: set<Event>, poll: Poll, b: Poll, c: Poll)
    requires DistinctKeys(BY_TIME, rs) && IsBallot(rs, poll, b) && IsBallot(rs, poll, c)
    ensures b == c
  {
    if rs != {} {
      var e :| IsLatest(e, rs) && e.body.PollReplacement? && b == Replaced(poll, e.body.newStart);
      var f :| IsLatest(f, rs) && f.body.PollReplacement? && c == Replaced(poll, f.body.newStart);
      LatestUnique(e, f, rs);
    }
  }

  lemma PollDetermined(r: Relations, poll: Poll, p: Poll, q: Poll)
    requires DistinctTimes(r) && HasPoll(r, poll, p) && HasPoll(r, poll, q)
    ensures p == q
  {
    var b, a :| IsPollCount(r, poll, b, a, p);
    var c, d :| IsPollCount(r, poll, c, d, q);
    BallotDetermined(r.pollReplacements, poll, b, c);
    SortedListingStrict(BY_TIME, a, r.pollAnswers);
    SortedListingStrict(BY_TIME, d, r.pollAnswers);
    SortedListingUnique(BY_TIME, a, d, r.pollAnswers);
  }

  /** With distinct timestamps the relations determine the message, whatever the iteration orders. */
  lemma RenderingDetermined(r: Relations, base: Message, m: Message, n: Message)
    requires DistinctTimes(r) && Rendering(r, base, m) && Rendering(r, base, n)
    ensures SameUpToReactionOrder(m, n)
  {
    if !base.isEncrypted {
      match base.content
      case Some(Removed(_)) =>
      case Some(PollContent(poll)) =>
        ReactionsDetermined(r.annotations, base, m, n);
        PollDetermined(r, poll, m.content.value.poll, n.content.value.poll);
      case _ =>
        ReactionsDetermined(r.annotations, base, m, n);
        ReplacementDetermined(r.replacements, base, m, n);
    }
  }

  ghost predicate OneRedactionAtMost(seen: seq<Event>, target: string) {
    forall e, f :: e in seen && f in seen && Redacts(e, target) && Redacts(f, target) ==> e == f
  }

  /** The relations depend on which events were seen, not on their order. */
  lemma RelationsIgnoreOrder(s: seq<Event>, t: seq<Event>, target: string)
    requires forall e :: e in s <==> e in t
    requires OneRedactionAtMost(s, target)
    ensures RelationsOf(s, target) == RelationsOf(t, target)
  {
  }

  /** Arrival order does not matter. */
  lemma ArrivalOrderIrrelevant(s: seq<Event>, t: seq<Event>, base: Message, m: Message, n: Message)
    requires multiset(s) == multiset(t)
    requires DistinctTimes(RelationsOf(s, base.messageId)) && OneRedactionAtMost(s, base.messageId)
    requires Rendered(s, base, m) && Rendered(t, base, n)
    ensures SameUpToReactionOrder(m, n)
  {
    assert forall e: Event :: (e in s <==> e in multiset(s)) && (e in t <==> e in multiset(t));
    RelationsIgnoreOrder(s, t, base.messageId);
    RenderingDetermined(RelationsOf(s, base.messageId), base, m, n);
  }

  /** Events that do not relate to a message do not change its relations. */
  lemma {:induction false} LaterEventsIrrelevant(seen: seq<Event>, later: seq<Event>, target: string)
    requires forall e :: e in later ==> !RelatesTo(e, target)
    ensures RelationsOf(seen + later, target) == RelationsOf(seen, target)
    decreases |later|
  {
    assert forall e :: e in seen + later <==> e in seen || e in later;
    if later == [] {
      assert seen + later == seen;
    } else {
      assert Front(seen + later) == seen + Front(later) && Last(seen + later) == Last(later);
      assert Last(later) in later;
      assert forall e :: e in Front(later) ==> e in later;
      LaterEventsIrrelevant(seen, Front(later), target);
    }
  }

  /** Building again from the same original gives the same message: an original is no relation to itself. */
  lemma RebuiltSame(seen: seq<Event>, original: Event, base: Message, m: Message, n: Message)
    requires !RelatesTo(original, base.messageId) && DistinctTimes(RelationsOf(seen, base.messageId))
    requires Rendered(seen, base, m) && Rendered(seen + [original], base, n)
    ensures SameUpToReactionOrder(m, n)
  {
    LaterEventsIrrelevant(seen, [original], base.messageId);
    RenderingDetermined(RelationsOf(seen, base.messageId), base, m, n);
  }
}
