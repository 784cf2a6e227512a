/** What the application shows after a whole redecryption pass (src/memory_cache.rs). */
module PassDisplay {
  import opened Collections
  import opened Polls
  import opened Timeline
  import opened RoomCache
  import opened Redecryption
  import opened Application

  /** The reactions to a message among these events, in order. */
  function ReactionsIn(es: seq<Event>, id: string): seq<Event> {
    Filter((e: Event) => e.body.Annotation? && e.body.target == id, es)
  }

  /** The message with the reactions among these events added. */
  function WithReactions(base: Message, m: Message, es: seq<Event>): Message {
    m.(reactions := m.reactions + Map(ToReaction(base), ReactionsIn(es, base.messageId)))
  }

  lemma WithReactionsNext(base: Message, m: Message, es: seq<Event>, e: Event)
    ensures WithReactions(base, m, es + [e]) ==
            if RelatesTo(e, base.messageId) then WithReaction(base.roomId, e, WithReactions(base, m, es))
            else WithReactions(base, m, es)
  {
    assert Front(es + [e]) == es && Last(es + [e]) == e;
    var before, after := ReactionsIn(es, base.messageId), ReactionsIn(es + [e], base.messageId);
    if e.body.Annotation? && e.body.target == base.messageId {
      assert Map(ToReaction(base), after) == Map(ToReaction(base), before) + [ToReaction(base)(e)];
    } else {
      assert after == before;
    }
  }

  lemma ReactionsInConcat(a: seq<Event>, b: seq<Event>, id: string)
    ensures ReactionsIn(a + b, id) == ReactionsIn(a, id) + ReactionsIn(b, id)
    decreases |b|
  {
    if b == [] {
      assert a + b == a;
    } else {
      assert Front(a + b) == a + Front(b) && Last(a + b) == Last(b);
      ReactionsInConcat(a, Front(b), id);
    }
  }

  lemma MapConcat<A, B>(f: A -> B, s: seq<A>, t: seq<A>)
    ensures Map(f, s + t) == Map(f, s) + Map(f, t)
  {
  }

  lemma WithReactionsTwice(base: Message, m: Message, a: seq<Event>, b: seq<Event>)
    ensures WithReactions(base, WithReactions(base, m, a), b) == WithReactions(base, m, a + b)
  {
    ReactionsInConcat(a, b, base.messageId);
    MapConcat(ToReaction(base), ReactionsIn(a, base.messageId), ReactionsIn(b, base.messageId));
  }

  // ---- What the sends of a pass do to one message ----

  predicate NoneIs(id: string, keys: Keys, order: seq<string>) {
    forall k :: 0 <= k < |order| && keys(order[k]).Decrypted? ==> keys(order[k]).event.id != id
  }

  lemma FollowStep(
    room: string, seen: seq<Event>, d: Decryption, base: Message, shown: Shown, sends: seq<AppEvent>)
    requires ResolvedStep(room, seen, d, sends) && base.messageId in shown && base.roomId == room
    requires d.Decrypted? ==> d.event.id != base.messageId
    ensures var after := FollowAll(shown, sends); var es := if d.Decrypted? then [d.event] else [];
      base.messageId in after && after[base.messageId] == WithReactions(base, shown[base.messageId], es)
  {
    var m := shown[base.messageId];
    assert WithReactions(base, m, []) == m;
    if d.Decrypted? {
      assert [] + [d.event] == [d.event];
      WithReactionsNext(base, m, [], d.event);
      FollowResolution(room, seen, d.event, base.messageId, shown, sends);
    }
  }

  /** A message on display that is not itself decrypted only gains the decrypted reactions to it. */
  lemma {:induction false} FollowPass(
    room: string, seen: seq<Event>, keys: Keys, order: seq<string>, log: seq<AppEvent>, base: Message, shown: Shown)
    requires PassLog(room, seen, keys, order, log) && base.messageId in shown && base.roomId == room
    requires NoneIs(base.messageId, keys, order)
    ensures var after := FollowAll(shown, log);
      && base.messageId in after
      && after[base.messageId] == WithReactions(base, shown[base.messageId], DecryptedIn(keys, order))
  {
    if order == [] {
      assert WithReactions(base, shown[base.messageId], []) == shown[base.messageId];
    } else {
      var front, d := Front(order), keys(Last(order));
      var before := DecryptedIn(keys, front);
      var n := LastResolution(room, seen, keys, order, log);
      assert log[..n] + log[n..] == log;
      FollowConcat(shown, log[..n], log[n..]);
      FollowPass(room, seen, keys, front, log[..n], base, shown);
      FollowStep(room, seen + before, d, base, FollowAll(shown, log[..n]), log[n..]);
      WithReactionsTwice(base, shown[base.messageId], before, if d.Decrypted? then [d.event] else []);
    }
  }

  /** A message that is not on display stays away unless it is decrypted. */
  lemma {:induction false} StaysAway(shown: Shown, id: string, log: seq<AppEvent>)
    requires id !in shown
    ensures id !in FollowAll(shown, log)
  {
    if log == [] {
    } else {
      StaysAway(shown, id, Front(log));
    }
  }

  // ---- When that is as the message must look ----

  /** The reactions are new, and each was decrypted once. */
  ghost predicate AllNew(news: seq<Event>, known: set<Event>) {
    NoDuplicates(news) && forall e :: e in news ==> e !in known
  }

  lemma ListedTogether(order: seq<Event>, known: set<Event>, news: seq<Event>)
    requires Lists(order, known) && AllNew(news, known)
    ensures Lists(order + news, known + Elements(news))
  {
    var all := order + news;
    forall i, j | 0 <= i < j < |all|
      ensures all[i] != all[j]
    {
      assert all[j] in order || all[j] in news;
    }
  }

  lemma NewReactionsListed(known: set<Event>, news: seq<Event>, base: Message, m: Message, n: Message)
    requires HasReactions(known, base, m) && n.reactions == m.reactions + Map(ToReaction(base), news)
    requires AllNew(news, known)
    ensures HasReactions(known + Elements(news), base, n)
  {
    var order :| Lists(order, known) && m.reactions == base.reactions + Map(ToReaction(base), order);
    MapConcat(ToReaction(base), order, news);
    ListedTogether(order, known, news);
    assert n.reactions == base.reactions + Map(ToReaction(base), order + news);
  }

  lemma NewReactionsIff(known: set<Event>, news: seq<Event>, base: Message, m: Message, n: Message)
    requires HasReactions(known, base, m) && n.reactions == m.reactions + Map(ToReaction(base), news)
    ensures HasReactions(known + Elements(news), base, n) <==> AllNew(news, known)
  {
    if AllNew(news, known) {
      NewReactionsListed(known, news, base, m, n);
    } else {
      AllNewBySize(known, news);
      ReactionCount(known, base, m);
      if HasReactions(known + Elements(news), base, n) {
        ReactionCount(known + Elements(news), base, n);
      }
    }
  }

  /** A union is as large as its parts together only if they do not overlap. */
  lemma {:induction false} AllNewBySize(known: set<Event>, news: seq<Event>)
    ensures |known + Elements(news)| <= |known| + |news|
    ensures |known + Elements(news)| == |known| + |news| ==> AllNew(news, known)
  {
    if news == [] {
      assert known + Elements(news) == known;
    } else {
      var front, last := Front(news), Last(news);
      AllNewBySize(known, front);
      assert news == front + [last];
      assert known + Elements(news) == known + Elements(front) + {last};
    }
  }

  /** The content `m` has with the relations `r` is right with `t`; the application was not told of the edit. */
  ghost predicate ContentRight(r: Relations, t: Relations, base: Message, m: Message, edited: bool) {
    match base.content
    case Some(Removed(reason)) =>
      && !edited
      && m.content == Some(Removed(if t.redaction.Some? && t.redaction.value.body.Redaction?
                                   then t.redaction.value.body.reason else reason))
    case Some(PollContent(poll)) =>
      !edited && SamePoll(r, t, poll) && IsPoll(m) && (m.content.value.poll.completed <==> t.pollClosings != {})
    case _ =>
      if t.replacements == {} then !edited && m.content == base.content
      else edited && exists e :: IsLatest(e, t.replacements) && e.body.MessageReplacement?
                                 && m.content == e.body.newContent
  }

  /** A message shown with the content it had before more events were seen, against how it must look since. */
  lemma RightIff(r: Relations, t: Relations, base: Message, m: Message, c: Message)
    requires Rendering(r, base, m) && !base.isEncrypted && Fresh(base) && base.reactions == [] && DistinctTimes(r)
    requires c == base.(content := m.content, reactions := c.reactions, edited := c.edited, details := c.details)
    ensures Rendering(t, base, c) <==>
            c.details == base.details && ReactionsRight(t, base, c.reactions) && ContentRight(r, t, base, m, c.edited)
  {
    SameReactions(t.annotations, base, base.(reactions := c.reactions), c);
    match base.content
    case Some(PollContent(poll)) => CountKeptIff(r, t, poll, m.content.value.poll);
    case _ =>
  }

  lemma AnnotationsGrow(seen: seq<Event>, es: seq<Event>, id: string)
    ensures Annotations(seen + es, id) == Annotations(seen, id) + Elements(ReactionsIn(es, id))
  {
    assert forall e :: e in seen + es <==> e in seen || e in es;
  }

  /** After a pass that did not decrypt it the message on display looks as it must. */
  ghost predicate Settled(r: Relations, t: Relations, news: seq<Event>, base: Message, m: Message) {
    if base.isEncrypted then news == []
    else
      && (if IsRemoved(base) then news == [] else AllNew(news, r.annotations))
      && ContentRight(r, t, base, m, m.edited)
  }

  /**
   * After a pass the application shows a message that was not decrypted with the decrypted reactions added. That is
   * as it must look exactly if the reactions are new and the other events decrypted ask for nothing else.
   */
  lemma PassShownIff(
    room: string, seen: seq<Event>, keys: Keys, order: seq<string>, log: seq<AppEvent>, base: Message, shown: Shown)
    requires PassLog(room, seen, keys, order, log) && NoneIs(base.messageId, keys, order)
    requires base.messageId in shown && Rendered(seen, base, shown[base.messageId])
    requires Fresh(base) && base.roomId == room && base.reactions == []
    requires DistinctTimes(RelationsOf(seen, base.messageId))
    ensures var after, es := FollowAll(shown, log), DecryptedIn(keys, order);
            var id, m := base.messageId, shown[base.messageId];
      && id in after && after[id] == WithReactions(base, m, es)
      && (Rendered(seen + es, base, after[id]) <==>
          Settled(RelationsOf(seen, id), RelationsOf(seen + es, id), ReactionsIn(es, id), base, m))
  {
    FollowPass(room, seen, keys, order, log, base, shown);
    var es, id := DecryptedIn(keys, order), base.messageId;
    AnnotationsGrow(seen, es, id);
    SettledIff(RelationsOf(seen, id), RelationsOf(seen + es, id), ReactionsIn(es, id), base, shown[id],
               WithReactions(base, shown[id], es));
  }

  lemma SettledIff(r: Relations, t: Relations, news: seq<Event>, base: Message, m: Message, c: Message)
    requires Rendering(r, base, m) && Fresh(base) && base.reactions == [] && DistinctTimes(r)
    requires t.annotations == r.annotations + Elements(news)
    requires c == m.(reactions := m.reactions + Map(ToReaction(base), news))
    ensures Rendering(t, base, c) <==> Settled(r, t, news, base, m)
  {
    if base.isEncrypted {
      assert c == base <==> news == [];
    } else {
      RightIff(r, t, base, m, c);
      if !IsRemoved(base) {
        NewReactionsIff(r.annotations, news, base, m, c);
        SameReactions(t.annotations, base, base.(reactions := c.reactions), c);
      }
    }
  }

  // ---- A message decrypted in the pass ----

  lemma {:induction false} DecryptedConcat(keys: Keys, a: seq<string>, b: seq<string>)
    ensures DecryptedIn(keys, a + b) == DecryptedIn(keys, a) + DecryptedIn(keys, b)
    decreases |b|
  {
    if b == [] {
      assert a + b == a;
    } else {
      assert Front(a + b) == a + Front(b) && Last(a + b) == Last(b);
      DecryptedConcat(keys, a, Front(b));
    }
  }

  lemma SplitNext(
    room: string, seen: seq<Event>, keys: Keys, first: seq<string>, front: seq<string>, id: string,
    log: seq<AppEvent>, k: nat, n: nat)
    requires n <= k <= |log| && PassLog(room, seen + DecryptedIn(keys, first), keys, front, log[..k][n..])
    requires ResolvedStep(room, seen + DecryptedIn(keys, first + front), keys(id), log[k..])
    ensures PassLog(room, seen + DecryptedIn(keys, first), keys, front + [id], log[n..])
  {
    assert log[..k][n..] + log[k..] == log[n..];
    DecryptedConcat(keys, first, front);
    assert seen + (DecryptedIn(keys, first) + DecryptedIn(keys, front)) ==
           seen + DecryptedIn(keys, first) + DecryptedIn(keys, front);
    PassLogNext(room, seen + DecryptedIn(keys, first), keys, front, log[..k][n..], id, log[k..]);
  }

  /** The part of the log for the events tried first, and for the rest. */
  lemma {:induction false} PassLogSplit(
    room: string, seen: seq<Event>, keys: Keys, first: seq<string>, rest: seq<string>, log: seq<AppEvent>)
    returns (n: nat)
    requires PassLog(room, seen, keys, first + rest, log)
    ensures n <= |log| && PassLog(room, seen, keys, first, log[..n])
    ensures PassLog(room, seen + DecryptedIn(keys, first), keys, rest, log[n..])
    decreases |rest|
  {
    if rest == [] {
      assert first + rest == first;
      n := |log|;
      assert log[..n] == log && log[n..] == [];
    } else {
      var front, id := Front(rest), Last(rest);
      assert rest == front + [id];
      assert Front(first + rest) == first + front && Last(first + rest) == id;
      var k := LastResolution(room, seen, keys, first + rest, log);
      n := PassLogSplit(room, seen, keys, first, front, log[..k]);
      assert log[..k][..n] == log[..n];
      SplitNext(room, seen, keys, first, front, id, log, k, n);
    }
  }

  /** What is known when the message `d` is decrypted, between the events tried before and after it. */
  ghost predicate DecryptedAt(
    room: string, seen: seq<Event>, keys: Keys, front: seq<string>, k: string, back: seq<string>, d: Event,
    base: Message, log: seq<AppEvent>)
  {
    && PassLog(room, seen, keys, front + ([k] + back), log)
    && keys(k) == Decrypted(d) && Produce(room, d) == Produces(base) && !base.isEncrypted && Fresh(base)
    && NoneIs(d.id, keys, front) && NoneIs(d.id, keys, back)
  }

  lemma PassLogOne(room: string, seen: seq<Event>, keys: Keys, k: string, log: seq<AppEvent>)
    requires PassLog(room, seen, keys, [k], log)
    ensures ResolvedStep(room, seen, keys(k), log)
  {
    assert Front([k]) == [] && Last([k]) == k;
    var n := LastResolution(room, seen, keys, [k], log);
    assert log[n..] == log && seen + DecryptedIn(keys, []) == seen;
  }

  lemma FollowMessage(room: string, seen: seq<Event>, d: Event, base: Message, shown: Shown, sends: seq<AppEvent>)
    returns (m: Message)
    requires Resolution(room, seen, d, sends) && Produce(room, d) == Produces(base) && d.id in shown
    ensures Rendered(seen, base, m)
    ensures var after := FollowAll(shown, sends);
      && (d.id in after <==> m.content.Some?)
      && (d.id in after ==> after[d.id] == shown[d.id].(content := m.content, isEncrypted := false))
  {
    m := ResolvedMessage(room, seen, d, sends);
    FollowOne(shown, sends[0]);
  }

  /** The log of a pass in which the message `d` is decrypted: before it, its sends, and after it. */
  lemma PassLogAt(
    room: string, seen: seq<Event>, keys: Keys, front: seq<string>, k: string, back: seq<string>, log: seq<AppEvent>)
    returns (a: seq<AppEvent>, b: seq<AppEvent>, c: seq<AppEvent>)
    requires PassLog(room, seen, keys, front + ([k] + back), log)
    ensures log == a + (b + c) && PassLog(room, seen, keys, front, a)
    ensures ResolvedStep(room, seen + DecryptedIn(keys, front), keys(k), b)
    ensures PassLog(room, seen + DecryptedIn(keys, front) + DecryptedIn(keys, [k]), keys, back, c)
  {
    var n := PassLogSplit(room, seen, keys, front, [k] + back, log);
    var rest := log[n..];
    var j := PassLogSplit(room, seen + DecryptedIn(keys, front), keys, [k], back, rest);
    a, b, c := log[..n], rest[..j], rest[j..];
    PassLogOne(room, seen + DecryptedIn(keys, front), keys, k, b);
  }

  /** The message `m`, rendered when it was decrypted, as it is shown at the end of the pass. */
  function ShownAt(
    keys: Keys, front: seq<string>, back: seq<string>, base: Message, m: Message, reactions: seq<Reaction>): Message
  {
    var c := base.(details := "", content := m.content, reactions := reactions);
    WithReactions(base, WithReactions(base, c, DecryptedIn(keys, front)), DecryptedIn(keys, back))
  }

  ghost predicate IsShownAt(
    after: Shown, keys: Keys, front: seq<string>, back: seq<string>, base: Message, m: Message,
    reactions: seq<Reaction>)
  {
    && (base.messageId in after <==> m.content.Some?)
    && (base.messageId in after ==> after[base.messageId] == ShownAt(keys, front, back, base, m, reactions))
  }

  /** The display of `d` up to its turn: `before` are the events seen then. */
  lemma AtItsTurn(
    room: string, seen: seq<Event>, before: seq<Event>, keys: Keys, front: seq<string>, d: Event, base: Message,
    a: seq<AppEvent>, b: seq<AppEvent>, reactions: seq<Reaction>, shown: Shown)
    returns (m: Message)
    requires PassLog(room, seen, keys, front, a) && NoneIs(d.id, keys, front) && Resolution(room, before, d, b)
    requires Produce(room, d) == Produces(base) && !base.isEncrypted
    requires d.id in shown && shown[d.id] == Encrypted(room, d, reactions)
    ensures Rendered(before, base, m)
    ensures var after, c := FollowAll(FollowAll(shown, a), b),
                            base.(details := "", content := m.content, reactions := reactions);
      && (d.id in after <==> m.content.Some?)
      && (d.id in after ==> after[d.id] == WithReactions(base, c, DecryptedIn(keys, front)))
  {
    FollowPass(room, seen, keys, front, a, base, shown);
    m := FollowMessage(room, before, d, base, FollowAll(shown, a), b);
    DecryptedForm(room, d, base, m.content, reactions, DecryptedIn(keys, front));
  }

  /** Decryption replaces the content, and the reactions stay. */
  lemma DecryptedForm(
    room: string, d: Event, base: Message, content: Option<Content>, reactions: seq<Reaction>, es: seq<Event>)
    requires Produce(room, d) == Produces(base) && !base.isEncrypted
    ensures WithReactions(base, Encrypted(room, d, reactions), es).(content := content, isEncrypted := false) ==
            WithReactions(base, base.(details := "", content := content, reactions := reactions), es)
  {
  }

  /** And from then on. */
  lemma AfterItsTurn(
    room: string, seen: seq<Event>, keys: Keys, back: seq<string>, id: string, base: Message, c: seq<AppEvent>,
    shown: Shown)
    requires PassLog(room, seen, keys, back, c) && NoneIs(id, keys, back)
    requires base.messageId == id && base.roomId == room
    ensures id in FollowAll(shown, c) <==> id in shown
    ensures id in shown ==> FollowAll(shown, c)[id] == WithReactions(base, shown[id], DecryptedIn(keys, back))
  {
    if id in shown {
      FollowPass(room, seen, keys, back, c, base, shown);
    } else {
      StaysAway(shown, id, c);
    }
  }

  lemma BothTurns(
    room: string, seen: seq<Event>, before: seq<Event>, since: seq<Event>, keys: Keys, front: seq<string>,
    back: seq<string>, d: Event, base: Message, a: seq<AppEvent>, b: seq<AppEvent>, c: seq<AppEvent>,
    reactions: seq<Reaction>, shown: Shown)
    returns (m: Message)
    requires PassLog(room, seen, keys, front, a) && NoneIs(d.id, keys, front) && Resolution(room, before, d, b)
    requires PassLog(room, since, keys, back, c) && NoneIs(d.id, keys, back)
    requires Produce(room, d) == Produces(base) && !base.isEncrypted
    requires d.id in shown && shown[d.id] == Encrypted(room, d, reactions)
    ensures Rendered(before, base, m)
    ensures IsShownAt(FollowAll(shown, a + (b + c)), keys, front, back, base, m, reactions)
  {
    m := AtItsTurn(room, seen, before, keys, front, d, base, a, b, reactions, shown);
    AfterItsTurn(room, since, keys, back, d.id, base, c, FollowAll(FollowAll(shown, a), b));
    FollowConcat(shown, a, b + c);
    FollowConcat(FollowAll(shown, a), b, c);
  }

  /** The message `d` as decrypted in the pass: with the content it had then, and the reactions of the whole pass. */
  lemma DecryptedInPass(
    room: string, seen: seq<Event>, keys: Keys, front: seq<string>, k: string, back: seq<string>, d: Event,
    base: Message, log: seq<AppEvent>, reactions: seq<Reaction>, shown: Shown)
    returns (m: Message)
    requires DecryptedAt(room, seen, keys, front, k, back, d, base, log)
    requires d.id in shown && shown[d.id] == Encrypted(room, d, reactions)
    ensures Rendered(seen + DecryptedIn(keys, front), base, m)
    ensures IsShownAt(FollowAll(shown, log), keys, front, back, base, m, reactions)
  {
    var before := seen + DecryptedIn(keys, front);
    var a, b, c := PassLogAt(room, seen, keys, front, k, back, log);
    m := BothTurns(room, seen, before, before + DecryptedIn(keys, [k]), keys, front, back, d, base, a, b, c,
                   reactions, shown);
  }

  /** The message looks as it must, given the relations at its turn and after the pass. */
  ghost predicate SettledSince(r: Relations, t: Relations, base: Message, m: Message, reactions: seq<Reaction>) {
    base.details == "" && ReactionsRight(t, base, reactions) && ContentRight(r, t, base, m, false)
  }

  /** What is shown of a message at the end, against the events seen at its turn and at the end. */
  ghost predicate RightExactlyIf(after: Shown, before: seq<Event>, all: seq<Event>, base: Message, m: Message) {
    var id := base.messageId;
    id in after ==>
      (Rendered(all, base, after[id]) <==>
       SettledSince(RelationsOf(before, id), RelationsOf(all, id), base, m, after[id].reactions))
  }

  lemma SettledSinceIff(after: Shown, before: seq<Event>, all: seq<Event>, base: Message, m: Message)
    requires Rendered(before, base, m) && DistinctTimes(RelationsOf(before, base.messageId))
    requires !base.isEncrypted && Fresh(base) && base.reactions == []
    requires base.messageId in after ==>
      var c := after[base.messageId]; c == base.(details := "", content := m.content, reactions := c.reactions)
    ensures RightExactlyIf(after, before, all, base, m)
  {
    var id := base.messageId;
    if id in after {
      RightIff(RelationsOf(before, id), RelationsOf(all, id), base, m, after[id]);
    }
  }

  /**
   * A message decrypted in a pass, in terms of the relations at its turn and after the pass: it looks as it must
   * exactly if it has no details, has its reactions, and its content is final and not an edit.
   */
  lemma DecryptedInPassIff(
    room: string, seen: seq<Event>, keys: Keys, front: seq<string>, k: string, back: seq<string>, d: Event,
    base: Message, log: seq<AppEvent>, reactions: seq<Reaction>, shown: Shown)
    returns (m: Message)
    requires DecryptedAt(room, seen, keys, front, k, back, d, base, log)
    requires d.id in shown && shown[d.id] == Encrypted(room, d, reactions)
    requires DistinctTimes(RelationsOf(seen + DecryptedIn(keys, front), d.id))
    ensures Rendered(seen + DecryptedIn(keys, front), base, m)
    ensures IsShownAt(FollowAll(shown, log), keys, front, back, base, m, reactions)
    ensures RightExactlyIf(FollowAll(shown, log), seen + DecryptedIn(keys, front),
                           seen + DecryptedIn(keys, front + ([k] + back)), base, m)
  {
    m := DecryptedInPass(room, seen, keys, front, k, back, d, base, log, reactions, shown);
    SettledSinceIff(FollowAll(shown, log), seen + DecryptedIn(keys, front),
                    seen + DecryptedIn(keys, front + ([k] + back)), base, m);
  }

  // ---- A message and its edit in one pass ----

  /** The edit `e` of the message `d`, both decrypted now, and no other edit seen. */
  ghost predicate EditOf(room: string, seen: seq<Event>, keys: Keys, i: string, d: Event, j: string, e: Event) {
    && keys(i) == Decrypted(d) && d.body.RoomMessage? && d.body.content.Some?
    && (d.body.content.value.Plain? || d.body.content.value.MembershipChange?)
    && keys(j) == Decrypted(e) && e.body.MessageReplacement? && RelatesTo(e, d.id) && e.id != d.id
    && Replacements(seen, d.id) == {}
  }

  lemma NoEditYet(seen: seq<Event>, base: Message, m: Message)
    requires Rendered(seen, base, m) && TakesReplacements(base) && Replacements(seen, base.messageId) == {}
    ensures m.content == base.content
  {
  }

  lemma OneEdit(seen: seq<Event>, e: Event, base: Message, m: Message)
    requires Replacements(seen, base.messageId) == {} && e.body.MessageReplacement? && RelatesTo(e, base.messageId)
    ensures Replacements(seen + [e], base.messageId) == {e}
    ensures Rendered(seen + [e], base, m) && TakesReplacements(base) ==> m.content == e.body.newContent
  {
    RelationsExtend(seen, e, base.messageId);
  }

  /** A message shown as not edited is not as it must look when an edit was seen. */
  lemma EditNeverShown(seen: seq<Event>, es: seq<Event>, e: Event, base: Message, c: Message)
    requires e in es && e.body.MessageReplacement? && RelatesTo(e, base.messageId) && TakesReplacements(base)
    requires !c.edited
    ensures !Rendered(seen + es, base, c)
  {
    assert e in Replacements(seen + es, base.messageId);
  }

  lemma TwoDecrypted(keys: Keys, i: string, j: string)
    requires keys(i).Decrypted? && keys(j).Decrypted?
    ensures DecryptedIn(keys, [i, j]) == [keys(i).event, keys(j).event]
  {
    assert [i] + [j] == [i, j];
    DecryptedConcat(keys, [i], [j]);
    OneDecrypted(keys, i);
    OneDecrypted(keys, j);
  }

  /** The message first: the application shows the content before the edit, which is not as it must look. */
  lemma MessageThenEdit(
    room: string, seen: seq<Event>, keys: Keys, i: string, d: Event, j: string, e: Event, log: seq<AppEvent>,
    shown: Shown)
    requires EditOf(room, seen, keys, i, d, j, e) && PassLog(room, seen, keys, [i, j], log)
    requires d.id in shown && shown[d.id] == Encrypted(room, d, [])
    ensures var after := FollowAll(shown, log);
      && d.id in after && after[d.id].content == d.body.content && !after[d.id].edited
      && !Rendered(seen + DecryptedIn(keys, [i, j]), Produce(room, d).base, after[d.id])
  {
    var base := Produce(room, d).base;
    assert [] + ([i] + [j]) == [i, j] && seen + DecryptedIn(keys, []) == seen;
    var m := DecryptedInPass(room, seen, keys, [], i, [j], d, base, log, [], shown);
    NoEditYet(seen, base, m);
    TwoDecrypted(keys, i, j);
    EditNeverShown(seen, DecryptedIn(keys, [i, j]), e, base, FollowAll(shown, log)[d.id]);
  }

  /** The edit first: the application shows the edited content, but not that it was edited, as it must. */
  lemma EditThenMessage(
    room: string, seen: seq<Event>, keys: Keys, i: string, d: Event, j: string, e: Event, log: seq<AppEvent>,
    shown: Shown)
    requires EditOf(room, seen, keys, i, d, j, e) && PassLog(room, seen, keys, [j, i], log)
    requires d.id in shown && shown[d.id] == Encrypted(room, d, [])
    ensures var after := FollowAll(shown, log);
      && d.id in after && after[d.id].content == e.body.newContent && !after[d.id].edited
      && !Rendered(seen + DecryptedIn(keys, [j, i]), Produce(room, d).base, after[d.id])
  {
    var base := Produce(room, d).base;
    assert [j] + ([i] + []) == [j, i];
    OneDecrypted(keys, j);
    var m := DecryptedInPass(room, seen, keys, [j], i, [], d, base, log, [], shown);
    OneEdit(seen, e, base, m);
    TwoDecrypted(keys, j, i);
    EditNeverShown(seen, DecryptedIn(keys, [j, i]), e, base, FollowAll(shown, log)[d.id]);
  }
}
