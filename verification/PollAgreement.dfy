/** The two ways a poll is assembled: from the room cache, and from the poll's relations loaded at once. */
module PollAgreement {
  import opened Collections
  import opened Polls
  import opened Timeline

  // ---- What the one-off assembly loads ----

  /** How it reads a loaded event; `time` is the time the SDK gives it. */
  function AsRelation(time: Event -> int): Event -> Relation {
    (e: Event) => Relation(time(e), Some(e.sender),
                           match e.body
                           case NewPoll(start) => NewStart(start)
                           case PollReplacement(_, start) => ReplacementStart(start)
                           case PollAnswer(_, answers) => PollResponse(answers)
                           case PollClosed(_) => PollEnd
                           case _ => OtherKind)
  }

  /** The cache sorts by the time of the event itself; the SDK's times must not turn that order round. */
  ghost predicate KeepsOrder(time: Event -> int, related: seq<Event>) {
    forall e, f :: e in related && f in related && e.timestamp < f.timestamp ==> time(e) < time(f)
  }

  /** A poll event that relates to this poll. What is loaded may also relate to an event in the poll's thread. */
  predicate IsOwn(e: Event, poll: string) {
    match e.body
    case PollReplacement(target, _) => target == poll
    case PollAnswer(target, _) => target == poll
    case PollClosed(target) => target == poll
    case _ => false
  }

  /** `related` are the poll's relations in `r`, each once, in any order, among any other events. */
  ghost predicate LoadsRelations(r: Relations, related: seq<Event>, poll: string) {
    && NoDuplicates(related)
    && r.pollReplacements == (set e | e in related && e.body.PollReplacement? && e.body.target == poll)
    && r.pollAnswers == (set e | e in related && e.body.PollAnswer? && e.body.target == poll)
    && r.pollClosings == (set e | e in related && e.body.PollClosed? && e.body.target == poll)
  }

  /** The poll's own relations among the events, in order. */
  function OwnEvents(evs: seq<Event>, poll: string): seq<Event> {
    Filter((e: Event) => IsOwn(e, poll), evs)
  }

  /** The loaded relations as the assembly sees them, and those of the poll itself. */
  function Loaded(time: Event -> int, related: seq<Event>): seq<Relation> {
    Map(AsRelation(time), SortByKey(time, related))
  }

  function LoadedOwn(time: Event -> int, related: seq<Event>, poll: string): seq<Relation> {
    Map(AsRelation(time), OwnEvents(SortByKey(time, related), poll))
  }

  lemma MapAppend<A, B>(f: A -> B, s: seq<A>, x: A)
    ensures Map(f, s + [x]) == Map(f, s) + [f(x)]
  {
  }

  lemma MapSorted<A(!new), B(!new)>(k: A -> int, l: B -> int, f: A -> B, s: seq<A>)
    requires SortedBy(k, s) && forall a :: l(f(a)) == k(a)
    ensures SortedBy(l, Map(f, s))
  {
  }

  lemma {:induction false} InsertMapped<A(!new), B(!new)>(k: A -> int, l: B -> int, f: A -> B, s: seq<A>, x: A)
    requires SortedBy(k, s) && SortedBy(l, Map(f, s)) && forall a :: l(f(a)) == k(a)
    ensures InsertByKey(l, Map(f, s), f(x)) == Map(f, InsertByKey(k, s, x))
  {
    if s != [] && k(Last(s)) > k(x) {
      var front, last := Front(s), Last(s);
      assert Front(Map(f, s)) == Map(f, front) && Last(Map(f, s)) == f(last);
      MapAppend(f, InsertByKey(k, front, x), last);
      InsertMapped(k, l, f, front, x);
    } else {
      MapAppend(f, s, x);
    }
  }

  lemma {:induction false} SortMapped<A(!new), B(!new)>(k: A -> int, l: B -> int, f: A -> B, s: seq<A>)
    requires forall a :: l(f(a)) == k(a)
    ensures SortByKey(l, Map(f, s)) == Map(f, SortByKey(k, s))
  {
    if s == [] {
    } else {
      SortMapped(k, l, f, Front(s));
      assert Front(Map(f, s)) == Map(f, Front(s));
      MapSorted(k, l, f, SortByKey(k, Front(s)));
      InsertMapped(k, l, f, SortByKey(k, Front(s)), Last(s));
    }
  }

  /** The answers among `evs`, in order. */
  function AnswersIn(evs: seq<Event>): seq<Event> {
    Filter((e: Event) => e.body.PollAnswer?, evs)
  }

  lemma {:induction false} AnswersInResponses(time: Event -> int, evs: seq<Event>)
    ensures Map(ToResponse(), AnswersIn(evs)) == ResponsesIn(Map(AsRelation(time), evs))
  {
    if evs == [] {
    } else {
      var front, e := Front(evs), Last(evs);
      AnswersInResponses(time, front);
      assert Front(Map(AsRelation(time), evs)) == Map(AsRelation(time), front);
      var r := AnswersIn(front);
      assert Map(ToResponse(), r + [e]) == Map(ToResponse(), r) + [ToResponse()(e)];
    }
  }

  /** The responses older than the newest poll start. */
  function ResponsesBeforeStart(rs: seq<Relation>): seq<Response> {
    if rs == [] then []
    else if Last(rs).IsStart() then ResponsesIn(Front(rs))
    else ResponsesBeforeStart(Front(rs))
  }

  lemma {:induction false} ResponsesSplit(rs: seq<Relation>)
    ensures ResponsesIn(rs) == ResponsesBeforeStart(rs) + ResponsesSinceStart(rs)
  {
    if rs == [] {
    } else {
      ResponsesSplit(Front(rs));
    }
  }

  // ---- The cached poll ----

  /** `own` are the poll relations in `r`, in time order. */
  ghost predicate Lines(r: Relations, own: seq<Event>) {
    && NoDuplicates(own) && SortedBy(BY_TIME, own)
    && (forall e :: e in own ==> !e.body.NewPoll?)
    && r.pollReplacements == (set e | e in own && e.body.PollReplacement?)
    && r.pollAnswers == (set e | e in own && e.body.PollAnswer?)
    && r.pollClosings == (set e | e in own && e.body.PollClosed?)
  }

  ghost predicate DistinctPollTimes(r: Relations) {
    DistinctKeys(BY_TIME, r.pollReplacements) && DistinctKeys(BY_TIME, r.pollAnswers)
  }

  lemma SortedByBoth(time: Event -> int, evs: seq<Event>)
    requires SortedBy(time, evs) && KeepsOrder(time, evs)
    ensures SortedBy(BY_TIME, evs)
  {
    forall i, j | 0 <= i < j < |evs|
      ensures BY_TIME(evs[i]) <= BY_TIME(evs[j])
    {
      assert evs[i] in evs && evs[j] in evs;
      assert time(evs[i]) <= time(evs[j]);
    }
  }

  lemma SortedLoaded(time: Event -> int, related: seq<Event>)
    requires NoDuplicates(related) && KeepsOrder(time, related)
    ensures var evs := SortByKey(time, related);
      NoDuplicates(evs) && SortedBy(BY_TIME, evs) && forall e :: e in evs <==> e in related
  {
    var evs := SortByKey(time, related);
    SameElements(evs, related);
    ListingFromPermutation(related, evs, Elements(related));
    SortedByBoth(time, evs);
  }

  lemma LinesOf(r: Relations, related: seq<Event>, own: seq<Event>, poll: string)
    requires LoadsRelations(r, related, poll) && NoDuplicates(own) && SortedBy(BY_TIME, own)
    requires forall e :: e in own <==> e in related && IsOwn(e, poll)
    ensures Lines(r, own)
  {
  }

  lemma OwnLines(r: Relations, time: Event -> int, related: seq<Event>, poll: string)
    requires LoadsRelations(r, related, poll) && KeepsOrder(time, related)
    ensures Lines(r, OwnEvents(SortByKey(time, related), poll))
  {
    var evs := SortByKey(time, related);
    SortedLoaded(time, related);
    FilterKeepsOrder(BY_TIME, (e: Event) => IsOwn(e, poll), evs);
    LinesOf(r, related, OwnEvents(evs, poll), poll);
  }

  lemma SameElements<T(!new)>(a: seq<T>, b: seq<T>)
    requires multiset(a) == multiset(b)
    ensures forall x :: x in a <==> x in b
  {
    assert forall x :: (x in a <==> x in multiset(a)) && (x in b <==> x in multiset(b));
  }

  ghost predicate IsLatestReplacement(e: Event, evs: seq<Event>) {
    e in evs && e.body.PollReplacement? && forall f :: f in evs && f.body.PollReplacement? ==>
      f.timestamp <= e.timestamp
  }

  lemma LastStartNext(time: Event -> int, before: seq<Event>, e: Event)
    requires !e.body.NewPoll?
    ensures LastStart(Map(AsRelation(time), before + [e])) ==
            if e.body.PollReplacement? then Some(e.body.newStart) else LastStart(Map(AsRelation(time), before))
  {
    MapAppend(AsRelation(time), before, e);
    var rs := Map(AsRelation(time), before);
    assert Front(rs + [AsRelation(time)(e)]) == rs && Last(rs + [AsRelation(time)(e)]) == AsRelation(time)(e);
  }

  /** Among the poll's own relations the newest start is the latest replacement. */
  lemma {:induction false} LastStartIsLatest(time: Event -> int, own: seq<Event>) returns (e: Option<Event>)
    requires SortedBy(BY_TIME, own) && forall f :: f in own ==> !f.body.NewPoll?
    ensures e.None? ==> forall f :: f in own ==> !f.body.PollReplacement?
    ensures e.Some? ==> IsLatestReplacement(e.value, own)
    ensures LastStart(Map(AsRelation(time), own)) == match e case None => None case Some(f) => Some(f.body.newStart)
  {
    e := None;
    if own == [] {
    } else {
      var front, last := Front(own), Last(own);
      assert own == front + [last];
      LastStartNext(time, front, last);
      if last.body.PollReplacement? {
        assert forall f :: f in own ==> BY_TIME(f) <= BY_TIME(last);
        e := Some(last);
      } else {
        e := LastStartIsLatest(time, front);
      }
    }
  }

  lemma HasEndIff(time: Event -> int, evs: seq<Event>)
    ensures HasEnd(Map(AsRelation(time), evs)) <==> exists e :: e in evs && e.body.PollClosed?
  {
    var rs := Map(AsRelation(time), evs);
    assert forall i :: 0 <= i < |evs| ==> (rs[i].IsEnd() <==> evs[i].body.PollClosed?);
    if e :| e in evs && e.body.PollClosed? {
      var i :| 0 <= i < |evs| && evs[i] == e;
      assert rs[i] in rs;
    }
    if r :| r in rs && r.IsEnd() {
      var i :| 0 <= i < |rs| && rs[i] == r;
      assert evs[i] in evs;
    }
  }

  /** The ballot the cache renders is that of the newest of the poll's own starts. */
  lemma SameBallotChosen(r: Relations, time: Event -> int, own: seq<Event>, poll: Poll, ballot: Poll)
    requires Lines(r, own) && DistinctPollTimes(r) && IsBallot(r.pollReplacements, poll, ballot)
    ensures ballot == ReplacedBy(poll, LastStart(Map(AsRelation(time), own)))
  {
    var latest := LastStartIsLatest(time, own);
    var rs := r.pollReplacements;
    if latest.Some? {
      assert IsLatest(latest.value, rs);
      var f :| IsLatest(f, rs) && f.body.PollReplacement? && ballot == Replaced(poll, f.body.newStart);
      LatestUnique(latest.value, f, rs);
    } else {
      assert rs == {};
    }
  }

  /** The answers the cache counts are the poll's own responses, in the same order. */
  lemma SameResponses(r: Relations, time: Event -> int, own: seq<Event>, order: seq<Event>)
    requires Lines(r, own) && DistinctPollTimes(r) && Lists(order, r.pollAnswers) && SortedBy(BY_TIME, order)
    ensures Map(ToResponse(), order) == ResponsesIn(Map(AsRelation(time), own))
  {
    FilterKeepsOrder(BY_TIME, (e: Event) => e.body.PollAnswer?, own);
    AnswersInResponses(time, own);
    var answers := r.pollAnswers;
    assert Lists(AnswersIn(own), answers);
    SortedListingStrict(BY_TIME, order, answers);
    SortedListingStrict(BY_TIME, AnswersIn(own), answers);
    SortedListingUnique(BY_TIME, order, AnswersIn(own), answers);
  }

  /** The cached poll: all own responses on the newest own ballot. */
  lemma CachedClosedForm(r: Relations, time: Event -> int, own: seq<Event>, poll: Poll, cached: Poll)
    requires Lines(r, own) && DistinctPollTimes(r) && HasPoll(r, poll, cached)
    ensures var rs := Map(AsRelation(time), own);
            cached == Fold(ReplacedBy(poll, LastStart(rs)), ResponsesIn(rs)).(completed := poll.completed || HasEnd(rs))
  {
    var rs := Map(AsRelation(time), own);
    var ballot, order :| IsPollCount(r, poll, ballot, order, cached);
    assert ballot == ReplacedBy(poll, LastStart(rs)) by {
      SameBallotChosen(r, time, own, poll, ballot);
    }
    assert Map(ToResponse(), order) == ResponsesIn(rs) by {
      SameResponses(r, time, own, order);
    }
    assert HasEnd(rs) <==> r.pollClosings != {} by {
      HasEndIff(time, own);
      assert forall e :: e in r.pollClosings <==> e in own && e.body.PollClosed?;
    }
  }

  // ---- The assembled poll ----

  /** Every poll start among the events has a kind the client knows. */
  predicate KindsKnown(evs: seq<Event>) {
    forall e :: e in evs ==>
      (e.body.NewPoll? ==> Convertible(e.body.start)) && (e.body.PollReplacement? ==> Convertible(e.body.newStart))
  }

  lemma ConvertibleIff(time: Event -> int, evs: seq<Event>)
    ensures AllConvertible(Map(AsRelation(time), evs)) <==> KindsKnown(evs)
  {
    var rs := Map(AsRelation(time), evs);
    if KindsKnown(evs) {
      forall r | r in rs && r.IsStart()
        ensures Convertible(r.kind.start)
      {
        var i :| 0 <= i < |rs| && rs[i] == r;
        assert evs[i] in evs;
      }
    }
    if AllConvertible(rs) {
      forall e | e in evs && (e.body.NewPoll? || e.body.PollReplacement?)
        ensures Convertible(if e.body.NewPoll? then e.body.start else e.body.newStart)
      {
        var i :| 0 <= i < |evs| && evs[i] == e;
        assert rs[i] in rs && rs[i].IsStart();
      }
    }
  }

  /** The assembled poll: the responses since the newest start of any poll. It fails on a start of unknown kind. */
  lemma AssembledClosedForm(time: Event -> int, related: seq<Event>, start: PollStart, poll: Poll)
    requires AssemblePollStart(start) == Ok(poll)
    ensures AllConvertible(Loaded(time, related)) <==> KindsKnown(related)
    ensures Assembled(Some(start), Map(AsRelation(time), related)).Ok? <==> KindsKnown(related)
    ensures var rs := Loaded(time, related);
      KindsKnown(related) ==>
        Assembled(Some(start), Map(AsRelation(time), related)) ==
        Ok(Fold(ReplacedBy(poll, LastStart(rs)), ResponsesSinceStart(rs)).(completed := HasEnd(rs)))
  {
    var evs := SortByKey(time, related);
    SortMapped(time, BY_TIMESTAMP, AsRelation(time), related);
    SameElements(evs, related);
    ConvertibleIff(time, evs);
    AssemblySucceedsIff(poll, Loaded(time, related));
    if KindsKnown(related) {
      AssemblyClosedForm(poll, Loaded(time, related));
    }
  }

  lemma OwnConvertible(time: Event -> int, related: seq<Event>, poll: string)
    requires KindsKnown(related)
    ensures AllConvertible(LoadedOwn(time, related, poll))
  {
    var evs := SortByKey(time, related);
    SameElements(evs, related);
    ConvertibleIff(time, OwnEvents(evs, poll));
  }

  // ---- Exactly when the two show the same ----

  /** The start that counts: the newest among the relations, or else the original. */
  function CurrentStart(start: PollStart, rs: seq<Relation>): PollStart {
    match LastStart(rs)
    case None => start
    case Some(newest) => newest
  }

  /** Two starts that ask the same; a limit beyond 32 bits counts as the greatest one. */
  predicate SameQuestion(a: PollStart, b: PollStart) {
    && a.kind == b.kind && a.question == b.question && a.answers == b.answers
    && ClampSelections(a.maxSelections) == ClampSelections(b.maxSelections)
  }

  lemma {:induction false} CurrentConvertible(start: PollStart, rs: seq<Relation>)
    requires Convertible(start) && AllConvertible(rs)
    ensures Convertible(CurrentStart(start, rs))
    decreases |rs|
  {
    if rs == [] {
    } else {
      var front, r := Front(rs), Last(rs);
      assert rs == front + [r];
      if !r.IsStart() {
        CurrentConvertible(start, front);
      }
    }
  }

  /** The ballot is that of the current start alone. */
  lemma BallotOfCurrent(start: PollStart, poll: Poll, rs: seq<Relation>)
    requires AssemblePollStart(start) == Ok(poll) && AllConvertible(rs)
    ensures AssemblePollStart(CurrentStart(start, rs)) == Ok(ReplacedBy(poll, LastStart(rs)))
    ensures Unvoted(ReplacedBy(poll, LastStart(rs)))
  {
    CurrentConvertible(start, rs);
  }

  lemma SameQuestionIff(a: PollStart, b: PollStart)
    requires Convertible(a) && Convertible(b)
    ensures SameBallot(AssemblePollStart(a).value, AssemblePollStart(b).value) <==> SameQuestion(a, b)
    ensures SameQuestion(a, b) ==> AssemblePollStart(a) == AssemblePollStart(b)
  {
    var p, q := AssemblePollStart(a).value, AssemblePollStart(b).value;
    if SameBallot(p, q) {
      assert |a.answers| == |p.options| == |q.options| == |b.answers|;
      forall i | 0 <= i < |a.answers|
        ensures a.answers[i] == b.answers[i]
      {
        assert p.options[i].id == a.answers[i].id && p.options[i].text == a.answers[i].text;
        assert q.options[i].id == b.answers[i].id && q.options[i].text == b.answers[i].text;
      }
      assert a.answers == b.answers;
    }
  }

  lemma SameBallotOfFolds(p: Poll, q: Poll, xs: seq<Response>, ys: seq<Response>, d: bool, e: bool)
    requires !p.completed && !q.completed
    ensures SameBallot(Fold(p, xs).(completed := d), Fold(q, ys).(completed := e)) <==> SameBallot(p, q) && d == e
  {
    FoldSameBallot(p, xs);
    FoldSameBallot(q, ys);
  }

  lemma {:induction false} OwnEndIsEnd(time: Event -> int, related: seq<Event>, poll: string)
    ensures HasEnd(LoadedOwn(time, related, poll)) ==> HasEnd(Loaded(time, related))
  {
    var evs := SortByKey(time, related);
    HasEndIff(time, evs);
    HasEndIff(time, OwnEvents(evs, poll));
  }

  /** The two polls in closed form. */
  lemma BothClosedForms(
    id: string, r: Relations, start: PollStart, time: Event -> int, related: seq<Event>, poll: Poll, cached: Poll)
    requires LoadsRelations(r, related, id) && KeepsOrder(time, related) && DistinctPollTimes(r) && KindsKnown(related)
    requires AssemblePollStart(start) == Ok(poll) && HasPoll(r, poll, cached)
    ensures var all, own := Loaded(time, related), LoadedOwn(time, related, id);
      && AllConvertible(all) && AllConvertible(own)
      && Assembled(Some(start), Map(AsRelation(time), related)) ==
         Ok(Fold(ReplacedBy(poll, LastStart(all)), ResponsesSinceStart(all)).(completed := HasEnd(all)))
      && cached == Fold(ReplacedBy(poll, LastStart(own)), ResponsesIn(own)).(completed := HasEnd(own))
  {
    AssembledClosedForm(time, related, start, poll);
    OwnLines(r, time, related, id);
    CachedClosedForm(r, time, OwnEvents(SortByKey(time, related), id), poll, cached);
    OwnConvertible(time, related, id);
  }

  /** What both show apart from the voters, in terms of what was loaded. */
  predicate SameBallotLoaded(start: PollStart, all: seq<Relation>, own: seq<Relation>) {
    SameQuestion(CurrentStart(start, all), CurrentStart(start, own)) && (HasEnd(all) ==> HasEnd(own))
  }

  /**
   * The assembly succeeds exactly if every start loaded has a known kind. Then both show the same question, type,
   * limit, options and completion exactly if the newest start loaded asks what the newest start of the poll itself
   * asks, and no other poll's end is loaded unless the poll has one.
   */
  lemma BallotsAgreeIff(
    id: string, r: Relations, start: PollStart, time: Event -> int, related: seq<Event>, poll: Poll, cached: Poll)
    requires LoadsRelations(r, related, id) && KeepsOrder(time, related) && DistinctPollTimes(r)
    requires AssemblePollStart(start) == Ok(poll) && HasPoll(r, poll, cached)
    ensures var a := Assembled(Some(start), Map(AsRelation(time), related));
      && (a.Ok? <==> KindsKnown(related))
      && (a.Ok? ==> (SameBallot(a.value, cached) <==>
                     SameBallotLoaded(start, Loaded(time, related), LoadedOwn(time, related, id))))
  {
    AssembledClosedForm(time, related, start, poll);
    if KindsKnown(related) {
      var all, own := Loaded(time, related), LoadedOwn(time, related, id);
      BothClosedForms(id, r, start, time, related, poll, cached);
      BallotOfCurrent(start, poll, all);
      BallotOfCurrent(start, poll, own);
      SameQuestionIff(CurrentStart(start, all), CurrentStart(start, own));
      OwnEndIsEnd(time, related, id);
      SameBallotOfFolds(ReplacedBy(poll, LastStart(all)), ReplacedBy(poll, LastStart(own)),
                        ResponsesSinceStart(all), ResponsesIn(own), HasEnd(all), HasEnd(own));
    }
  }

  lemma SameBallotSameVoters(p: Poll, q: Poll)
    requires SameBallot(p, q) && forall i :: 0 <= i < |p.options| ==> p.options[i].voters == q.options[i].voters
    ensures p == q
  {
    assert forall i :: 0 <= i < |p.options| ==> p.options[i] == q.options[i];
    assert p.options == q.options;
  }

  /** Folds of one ballot are equal exactly if every option has the same votes. */
  lemma FoldsEqualIff(ballot: Poll, xs: seq<Response>, ys: seq<Response>)
    requires Unvoted(ballot)
    ensures Fold(ballot, xs) == Fold(ballot, ys) <==>
            forall i :: 0 <= i < |ballot.options| ==> SameVotes(ballot, xs, ys, i)
  {
    FoldSameBallot(ballot, xs);
    FoldSameBallot(ballot, ys);
    forall i | 0 <= i < |ballot.options|
      ensures Fold(ballot, xs).options[i].voters == Fold(ballot, ys).options[i].voters <==> SameVotes(ballot, xs, ys, i)
    {
      VotersEqualIff(ballot, xs, ys, i);
    }
    if forall i :: 0 <= i < |ballot.options| ==> SameVotes(ballot, xs, ys, i) {
      SameBallotSameVoters(Fold(ballot, xs), Fold(ballot, ys));
    }
  }

  /** Every option of the current ballot has the same votes from what each assembly counts. */
  ghost predicate SameVotesLoaded(start: PollStart, all: seq<Relation>, own: seq<Relation>) {
    var ballot := AssemblePollStart(CurrentStart(start, own));
    ballot.Ok? && forall i :: 0 <= i < |ballot.value.options| ==>
                     SameVotes(ballot.value, ResponsesSinceStart(all), ResponsesIn(own), i)
  }

  /**
   * The contents are identical exactly if moreover every option has the same votes from the responses loaded since
   * the newest start, and from all responses to the poll itself.
   */
  lemma ContentsAgreeIff(
    id: string, r: Relations, start: PollStart, time: Event -> int, related: seq<Event>, poll: Poll, cached: Poll)
    requires LoadsRelations(r, related, id) && KeepsOrder(time, related) && DistinctPollTimes(r) && KindsKnown(related)
    requires AssemblePollStart(start) == Ok(poll) && HasPoll(r, poll, cached)
    ensures var all, own := Loaded(time, related), LoadedOwn(time, related, id);
      Assembled(Some(start), Map(AsRelation(time), related)) == Ok(cached) <==>
      SameBallotLoaded(start, all, own) && SameVotesLoaded(start, all, own)
  {
    var all, own := Loaded(time, related), LoadedOwn(time, related, id);
    BothClosedForms(id, r, start, time, related, poll, cached);
    BallotOfCurrent(start, poll, all);
    BallotOfCurrent(start, poll, own);
    SameQuestionIff(CurrentStart(start, all), CurrentStart(start, own));
    OwnEndIsEnd(time, related, id);
    FormsEqualIff(ReplacedBy(poll, LastStart(all)), ReplacedBy(poll, LastStart(own)),
                  ResponsesSinceStart(all), ResponsesIn(own), HasEnd(all), HasEnd(own));
  }

  lemma FormsEqualIff(b: Poll, c: Poll, xs: seq<Response>, ys: seq<Response>, d: bool, e: bool)
    requires !b.completed && !c.completed && Unvoted(c) && (SameBallot(b, c) ==> b == c)
    ensures Fold(b, xs).(completed := d) == Fold(c, ys).(completed := e) <==>
            SameBallot(b, c) && d == e && forall i :: 0 <= i < |c.options| ==> SameVotes(c, xs, ys, i)
  {
    SameBallotOfFolds(b, c, xs, ys, d, e);
    if SameBallot(b, c) && d == e {
      FoldsEqualIff(c, xs, ys);
      FoldSameBallot(c, xs);
      FoldSameBallot(c, ys);
      CompletedEqual(Fold(c, xs), Fold(c, ys), d);
    } else {
      SameBallotRefl(Fold(c, ys).(completed := e));
    }
  }

  lemma SameBallotRefl(p: Poll)
    ensures SameBallot(p, p)
  {
  }

  lemma CompletedEqual(p: Poll, q: Poll, done: bool)
    requires p.completed == q.completed
    ensures p.(completed := done) == q.(completed := done) <==> p == q
  {
  }

  // ---- A replacement on top of what was loaded ----

  /** As `SameQuestion`, but a start of unknown kind says nothing about the type. */
  predicate KeepsQuestion(current: PollStart, handled: PollStart) {
    && current.question == handled.question && current.answers == handled.answers
    && ClampSelections(current.maxSelections) == ClampSelections(handled.maxSelections)
    && (Convertible(handled) ==> current.kind == handled.kind)
  }

  lemma AsksIff(current: PollStart, responses: seq<Response>, done: bool, handled: PollStart)
    requires Convertible(current)
    ensures Asks(Fold(AssemblePollStart(current).value, responses).(completed := done), handled) <==>
            KeepsQuestion(current, handled)
  {
    var ballot := AssemblePollStart(current).value;
    FoldSameBallot(ballot, responses);
    var poll := Fold(ballot, responses).(completed := done);
    assert forall i :: 0 <= i < |ballot.options| ==>
      poll.options[i].id == current.answers[i].id && poll.options[i].text == current.answers[i].text;
    if Asks(poll, handled) {
      forall i | 0 <= i < |current.answers|
        ensures current.answers[i] == handled.answers[i]
      {
        assert poll.options[i].id == handled.answers[i].id && poll.options[i].text == handled.answers[i].text;
      }
      assert current.answers == handled.answers;
    }
  }

  /**
   * The replacement event handler replaces the content of the poll it has just assembled. That is harmless exactly
   * if the newest start loaded asks the same and no response loaded since then leaves a vote.
   */
  lemma ReplaceAssembledUnchangedIff(
    start: PollStart, time: Event -> int, related: seq<Event>, poll: Poll, handled: PollStart)
    requires AssemblePollStart(start) == Ok(poll) && KindsKnown(related)
    ensures var all, a := Loaded(time, related), Assembled(Some(start), Map(AsRelation(time), related));
            var current := CurrentStart(start, all);
      && a.Ok? && AssemblePollStart(current).Ok?
      && (Replaced(a.value, handled) == a.value <==>
          KeepsQuestion(current, handled) && NoVotes(AssemblePollStart(current).value, ResponsesSinceStart(all)))
  {
    var all := Loaded(time, related);
    var current, since := CurrentStart(start, all), ResponsesSinceStart(all);
    AssembledClosedForm(time, related, start, poll);
    BallotOfCurrent(start, poll, all);
    var ballot := AssemblePollStart(current).value;
    ReplaceUnchangedIff(Fold(ballot, since).(completed := HasEnd(all)), handled);
    AsksIff(current, since, HasEnd(all), handled);
    UnvotedIff(ballot, since);
  }

  /** An older replacement handled while a newer one is loaded brings the older question back, votes or not. */
  lemma OlderReplacementComesBack(
    start: PollStart, time: Event -> int, older: Event, newer: Event, poll: Poll)
    requires AssemblePollStart(start) == Ok(poll) && time(older) < time(newer)
    requires older.body.PollReplacement? && newer.body.PollReplacement? && KindsKnown([older, newer])
    requires older.body.newStart.question != newer.body.newStart.question
    ensures var a := Assembled(Some(start), Map(AsRelation(time), [older, newer]));
      && a.Ok? && Unvoted(a.value) && a.value.question == newer.body.newStart.question
      && Replaced(a.value, older.body.newStart).question == older.body.newStart.question
      && Replaced(a.value, older.body.newStart) != a.value
  {
    var all, newest := Loaded(time, [older, newer]), newer.body.newStart;
    NewerIsLast(time, older, newer);
    AssembledClosedForm(time, [older, newer], start, poll);
    var ballot := Replaced(poll, newest);
    assert Assembled(Some(start), Map(AsRelation(time), [older, newer])) ==
           Ok(Fold(ballot, []).(completed := HasEnd(all)));
    assert Fold(ballot, []) == ballot;
  }

  lemma NewerIsLast(time: Event -> int, older: Event, newer: Event)
    requires time(older) < time(newer) && newer.body.PollReplacement?
    ensures var all := Loaded(time, [older, newer]);
      LastStart(all) == Some(newer.body.newStart) && ResponsesSinceStart(all) == []
  {
    SortedPair(time, older, newer);
    var all := Loaded(time, [older, newer]);
    assert all != [] && Last(all) == AsRelation(time)(newer);
  }

  lemma SortedPair(time: Event -> int, a: Event, b: Event)
    requires time(a) < time(b)
    ensures SortByKey(time, [a, b]) == [a, b]
  {
    assert Front([a]) == [] && Last([a]) == a;
    assert SortByKey(time, [a]) == [a];
    assert Front([a, b]) == [a] && Last([a, b]) == b;
  }

  // ---- Option by option, when nothing of another poll counts ----

  /** The newest poll start, be it a replacement or another poll. */
  function NewestStart(evs: seq<Event>): (r: Option<Event>)
    ensures r.Some? ==> r.value in evs && (r.value.body.NewPoll? || r.value.body.PollReplacement?)
  {
    if evs == [] then None
    else if Last(evs).body.NewPoll? || Last(evs).body.PollReplacement? then Some(Last(evs))
    else
      assert evs == Front(evs) + [Last(evs)];
      NewestStart(Front(evs))
  }

  /** All responses and ends loaded, and the newest start if there is one, relate to the poll itself. */
  ghost predicate NothingForeign(evs: seq<Event>, poll: string) {
    && (forall e :: e in evs && (e.body.PollAnswer? || e.body.PollClosed?) ==> IsOwn(e, poll))
    && (NewestStart(evs).Some? ==> IsOwn(NewestStart(evs).value, poll))
  }

  lemma {:induction false} OwnStartCounts(time: Event -> int, evs: seq<Event>, poll: string)
    requires NewestStart(evs).Some? ==> IsOwn(NewestStart(evs).value, poll)
    ensures LastStart(Map(AsRelation(time), evs)) == LastStart(Map(AsRelation(time), OwnEvents(evs, poll)))
  {
    if evs == [] {
    } else {
      var front, e, own := Front(evs), Last(evs), OwnEvents(Front(evs), poll);
      assert Front(Map(AsRelation(time), evs)) == Map(AsRelation(time), front);
      MapAppend(AsRelation(time), own, e);
      if !e.body.NewPoll? && !e.body.PollReplacement? {
        OwnStartCounts(time, front, poll);
        assert Front(Map(AsRelation(time), own + [e])) == Map(AsRelation(time), own);
        assert own + [] == own;
      }
    }
  }

  lemma ResponsesAppend(rs: seq<Relation>, r: Relation)
    ensures ResponsesIn(rs + [r]) ==
            ResponsesIn(rs) + if r.IsResponse() then [Response(r.sender.value, r.kind.answers)] else []
  {
    assert Front(rs + [r]) == rs && Last(rs + [r]) == r;
  }

  lemma {:induction false} OwnResponsesCount(time: Event -> int, evs: seq<Event>, poll: string)
    requires forall e :: e in evs && e.body.PollAnswer? ==> IsOwn(e, poll)
    ensures ResponsesIn(Map(AsRelation(time), evs)) == ResponsesIn(Map(AsRelation(time), OwnEvents(evs, poll)))
  {
    if evs == [] {
    } else {
      var front, e, own := Front(evs), Last(evs), OwnEvents(Front(evs), poll);
      assert evs == front + [e];
      OwnResponsesCount(time, front, poll);
      MapAppend(AsRelation(time), front, e);
      ResponsesAppend(Map(AsRelation(time), front), AsRelation(time)(e));
      if IsOwn(e, poll) {
        MapAppend(AsRelation(time), own, e);
        ResponsesAppend(Map(AsRelation(time), own), AsRelation(time)(e));
      } else {
        assert OwnEvents(evs, poll) == own;
        assert ResponsesIn(Map(AsRelation(time), front)) + [] == ResponsesIn(Map(AsRelation(time), front));
      }
    }
  }

  /** Nobody who voted for option `i` in the responses `before` is missing from those `since`. */
  predicate NoStaleVotes(ballot: Poll, before: seq<Response>, since: seq<Response>, i: nat)
    requires i < |ballot.options|
  {
    forall u :: u in Fold(ballot, before).options[i].voters ==> u in Users(since)
  }

  lemma PrefixGone<T(!new)>(s: seq<T>, drop: set<T>, rest: seq<T>)
    ensures Without(s, drop) + rest == rest <==> forall x :: x in s ==> x in drop
  {
    assert |Without(s, drop) + rest| == |Without(s, drop)| + |rest|;
    if Without(s, drop) != [] {
      var x := Without(s, drop)[0];
      assert x in Without(s, drop);
    }
    if x :| x in s && x !in drop {
      assert x in Without(s, drop);
    }
  }

  /** Option by option: the assembled voters are a suffix of the cached ones, and all of them if no vote is stale. */
  ghost predicate VotersAgree(
    assembled: Poll, cached: Poll, ballot: Poll, before: seq<Response>, since: seq<Response>, i: nat)
    requires i < |assembled.options| && i < |cached.options| && i < |ballot.options|
  {
    var a, c := assembled.options[i], cached.options[i];
    && a.id == c.id && a.text == c.text
    && |a.voters| <= |c.voters| && c.voters[|c.voters| - |a.voters|..] == a.voters
    && (a.voters == c.voters <==> NoStaleVotes(ballot, before, since, i))
  }

  /** Everything but the voters is the same, and the voters agree option by option. */
  ghost predicate PollsAgree(assembled: Poll, cached: Poll, ballot: Poll, before: seq<Response>, since: seq<Response>) {
    && assembled.(options := cached.options) == cached
    && |assembled.options| == |cached.options| == |ballot.options|
    && forall i :: 0 <= i < |ballot.options| ==> VotersAgree(assembled, cached, ballot, before, since, i)
  }

  lemma SuffixIs<T>(gone: seq<T>, rest: seq<T>)
    ensures |gone + rest| == |gone| + |rest| && (gone + rest)[|gone|..] == rest
  {
  }

  lemma VotersAgreeFrom(
    assembled: Poll, cached: Poll, ballot: Poll, before: seq<Response>, since: seq<Response>, i: nat)
    requires i < |assembled.options| && i < |cached.options| && i < |ballot.options|
    requires assembled.options[i].id == cached.options[i].id && assembled.options[i].text == cached.options[i].text
    requires cached.options[i].voters ==
             Without(Fold(ballot, before).options[i].voters, Users(since)) + assembled.options[i].voters
    ensures VotersAgree(assembled, cached, ballot, before, since, i)
  {
    var prior, rest := Fold(ballot, before).options[i].voters, assembled.options[i].voters;
    PrefixGone(prior, Users(since), rest);
    SuffixIs(Without(prior, Users(since)), rest);
  }

  /** The voters of option `i` when the responses come in two batches, of which the assembly counts the second. */
  lemma FoldsAgree(ballot: Poll, all: seq<Response>, before: seq<Response>, since: seq<Response>, i: nat)
    requires Unvoted(ballot) && i < |ballot.options| && all == before + since
    ensures VotersAgree(Fold(ballot, since), Fold(ballot, all), ballot, before, since, i)
  {
    FoldSplit(ballot, before, since, i);
    FoldSameBallot(ballot, since);
    FoldSameBallot(ballot, all);
    VotersAgreeFrom(Fold(ballot, since), Fold(ballot, all), ballot, before, since, i);
  }

  lemma AllFoldsAgree(ballot: Poll, all: seq<Response>, before: seq<Response>, since: seq<Response>, done: bool)
    requires Unvoted(ballot) && all == before + since
    ensures PollsAgree(Fold(ballot, since).(completed := done), Fold(ballot, all).(completed := done),
                       ballot, before, since)
  {
    FoldSameBallot(ballot, since);
    FoldSameBallot(ballot, all);
    forall i | 0 <= i < |ballot.options|
      ensures VotersAgree(Fold(ballot, since).(completed := done), Fold(ballot, all).(completed := done),
                          ballot, before, since, i)
    {
      FoldsAgree(ballot, all, before, since, i);
    }
  }

  /**
   * If nothing of another poll counts, the two assemblers agree on everything but the voters, and on the voters of
   * each option up to votes cast before the newest replacement by users who did not respond again.
   */
  lemma AssemblersAgree(
    id: string, r: Relations, start: PollStart, time: Event -> int, related: seq<Event>, poll: Poll, cached: Poll)
    requires LoadsRelations(r, related, id) && KeepsOrder(time, related) && DistinctPollTimes(r) && KindsKnown(related)
    requires NothingForeign(SortByKey(time, related), id)
    requires AssemblePollStart(start) == Ok(poll) && HasPoll(r, poll, cached)
    ensures var a := Assembled(Some(start), Map(AsRelation(time), related));
            var all := Loaded(time, related);
            a.Ok? && PollsAgree(a.value, cached, ReplacedBy(poll, LastStart(all)),
                               ResponsesBeforeStart(all), ResponsesSinceStart(all))
  {
    var evs := SortByKey(time, related);
    var all, own := Loaded(time, related), LoadedOwn(time, related, id);
    BothClosedForms(id, r, start, time, related, poll, cached);
    OwnStartCounts(time, evs, id);
    OwnResponsesCount(time, evs, id);
    HasEndIff(time, evs);
    HasEndIff(time, OwnEvents(evs, id));
    BallotOfCurrent(start, poll, all);
    ResponsesSplit(all);
    AllFoldsAgree(ReplacedBy(poll, LastStart(all)), ResponsesIn(all),
                  ResponsesBeforeStart(all), ResponsesSinceStart(all), HasEnd(all));
  }

  /** When every replacement precedes every response, no vote can be stale and the contents are identical. */
  lemma ReplacementsFirstIdentical(assembled: Poll, cached: Poll, ballot: Poll, rs: seq<Relation>)
    requires PollsAgree(assembled, cached, ballot, ResponsesBeforeStart(rs), ResponsesSinceStart(rs)) && Unvoted(ballot)
    requires forall i, j :: 0 <= i < j < |rs| && rs[j].IsStart() ==> !rs[i].IsResponse()
    ensures assembled == cached
  {
    NoResponsesBeforeStart(rs);
    forall i | 0 <= i < |ballot.options|
      ensures assembled.options[i] == cached.options[i]
    {
      assert VotersAgree(assembled, cached, ballot, ResponsesBeforeStart(rs), ResponsesSinceStart(rs), i);
    }
    assert assembled.options == cached.options;
  }

  lemma {:induction false} NoResponsesBeforeStart(rs: seq<Relation>)
    requires forall i, j :: 0 <= i < j < |rs| && rs[j].IsStart() ==> !rs[i].IsResponse()
    ensures ResponsesBeforeStart(rs) == []
  {
    if rs == [] {
    } else {
      if Last(rs).IsStart() {
        assert forall i :: 0 <= i < |rs| - 1 ==> !rs[i].IsResponse();
        NoResponses(Front(rs));
      } else {
        NoResponsesBeforeStart(Front(rs));
      }
    }
  }

  lemma {:induction false} NoResponses(rs: seq<Relation>)
    requires forall i :: 0 <= i < |rs| ==> !rs[i].IsResponse()
    ensures ResponsesIn(rs) == []
  {
    if rs == [] {
    } else {
      NoResponses(Front(rs));
    }
  }

  // ---- What goes wrong ----

  lemma OneLoaded(time: Event -> int, e: Event, start: PollStart, poll: Poll)
    requires AssemblePollStart(start) == Ok(poll)
    ensures Assembled(Some(start), Map(AsRelation(time), [e])) == ApplyRelation(poll, AsRelation(time)(e))
  {
    var rs := Map(AsRelation(time), [e]);
    assert rs == [AsRelation(time)(e)] && Front(rs) == [];
    assert SortByKey(BY_TIMESTAMP, rs) == rs;
    assert ApplyRelations(poll, Front(rs)) == Ok(poll);
  }

  /**
   * The start of another poll that relates to this one, say in its thread, replaces the content in the one-off
   * assembly but not in the cache: the assemblers then disagree whenever the questions differ.
   */
  lemma OtherPollOverwrites(r: Relations, start: PollStart, time: Event -> int, other: Event, poll: Poll, cached: Poll)
    requires AssemblePollStart(start) == Ok(poll) && HasPoll(r, poll, cached)
    requires r.pollReplacements == {}
    requires other.body.NewPoll? && Convertible(other.body.start) && other.body.start.question != start.question
    ensures var a := Assembled(Some(start), Map(AsRelation(time), [other]));
            a.Ok? && a.value.question != cached.question
  {
    OneLoaded(time, other, start, poll);
    var ballot, order :| IsPollCount(r, poll, ballot, order, cached);
    FoldSameBallot(ballot, Map(ToResponse(), order));
  }

  /** The end of another poll completes this one in the one-off assembly, but not in the cache. */
  lemma OtherEndCompletes(
    id: string, r: Relations, start: PollStart, time: Event -> int, other: Event, poll: Poll, cached: Poll)
    requires AssemblePollStart(start) == Ok(poll) && HasPoll(r, poll, cached)
    requires other.body.PollClosed? && other.body.target != id && LoadsRelations(r, [other], id)
    ensures var a := Assembled(Some(start), Map(AsRelation(time), [other]));
            a.Ok? && a.value.completed && !cached.completed
  {
    assert r.pollClosings == {} && !poll.completed;
    OneLoaded(time, other, start, poll);
  }

  /** A response to another poll votes in this one if it has an option with that id. */
  lemma OtherResponseVotes(
    id: string, r: Relations, start: PollStart, time: Event -> int, other: Event, poll: Poll, cached: Poll, i: nat)
    requires AssemblePollStart(start) == Ok(poll) && HasPoll(r, poll, cached)
    requires other.body.PollAnswer? && other.body.target != id && LoadsRelations(r, [other], id)
    requires i < |poll.options| && Selects(poll, other.body.answers, i)
    ensures var a := Assembled(Some(start), Map(AsRelation(time), [other]));
            a.Ok? && |a.value.options| == |cached.options| == |poll.options|
            && a.value.options[i].voters == [other.sender] && cached.options[i].voters == []
  {
    OneLoaded(time, other, start, poll);
    var ballot, order :| IsPollCount(r, poll, ballot, order, cached);
    ListsSize(order, {});
  }
}
