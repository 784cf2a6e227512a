/** Assembling polls from a poll start and the relations to it (src/polls.rs). */
module Polls {
  import opened Collections

  /** The poll kind of the Matrix event; kinds the client does not know cannot be converted. */
  datatype PollKind = Disclosed | Undisclosed | Custom

  datatype PollType = TypeDisclosed | TypeUndisclosed

  datatype PollError = InvalidPollType | NotAPollStart

  datatype Answer = Answer(id: string, text: string)

  datatype PollStart = PollStart(kind: PollKind, maxSelections: nat, question: string, answers: seq<Answer>)

  datatype PollOption = PollOption(id: string, text: string, voters: seq<string>)

  datatype Poll = Poll(
    pollType: PollType,
    completed: bool,
    maxSelections: nat,
    question: string,
    options: seq<PollOption>)

  /** One response of a user, as the sequence of answer ids it names. */
  datatype Response = Response(user: string, answers: seq<string>)

  const U32_MAX: nat := 0xFFFF_FFFF

  function TryIntoChat(kind: PollKind): Option<PollType> {
    match kind
    case Disclosed => Some(TypeDisclosed)
    case Undisclosed => Some(TypeUndisclosed)
    case Custom => None
  }

  predicate Convertible(start: PollStart) {
    TryIntoChat(start.kind).Some?
  }

  function ClampSelections(n: nat): nat {
    if n <= U32_MAX then n else U32_MAX
  }

  function FreshOptions(answers: seq<Answer>): seq<PollOption> {
    Map((a: Answer) => PollOption(a.id, a.text, []), answers)
  }

  /** The poll asks what the start says, and nobody has voted. */
  predicate ShowsStart(poll: Poll, start: PollStart) {
    && poll.question == start.question
    && poll.maxSelections == (if start.maxSelections <= 0xFFFF_FFFF then start.maxSelections else 0xFFFF_FFFF)
    && |poll.options| == |start.answers|
    && (forall i :: 0 <= i < |poll.options| ==>
          poll.options[i] == PollOption(start.answers[i].id, start.answers[i].text, []))
    && (start.kind.Disclosed? ==> poll.pollType == TypeDisclosed)
    && (start.kind.Undisclosed? ==> poll.pollType == TypeUndisclosed)
  }

  function AssemblePollStart(start: PollStart): (r: Result<Poll, PollError>)
    ensures if start.kind.Custom? then r == Err(InvalidPollType)
            else r.Ok? && ShowsStart(r.value, start) && !r.value.completed
  {
    match TryIntoChat(start.kind)
    case None => Err(InvalidPollType)
    case Some(t) =>
      Ok(Poll(t, false, ClampSelections(start.maxSelections), start.question, FreshOptions(start.answers)))
  }

  /** A poll after `replace_content`: only the type survives an unconvertible kind. */
  function Replaced(poll: Poll, start: PollStart): Poll {
    poll.(maxSelections := ClampSelections(start.maxSelections),
         options := FreshOptions(start.answers),
         question := start.question,
         pollType := match TryIntoChat(start.kind) case Some(t) => t case None => poll.pollType)
  }

  /** `i` is the option that a search for its id finds. */
  predicate IsFirst(options: seq<PollOption>, i: nat)
    requires i < |options|
  {
    forall k :: 0 <= k < i ==> options[k].id != options[i].id
  }

  /** A response votes for option `i`: no earlier option has its id, and one of the answers that count names it. */
  predicate Selects(poll: Poll, answers: seq<string>, i: nat)
    requires i < |poll.options|
  {
    && (forall k :: 0 <= k < i ==> poll.options[k].id != poll.options[i].id)
    && exists k :: 0 <= k < |answers| && k < poll.maxSelections && answers[k] == poll.options[i].id
  }

  lemma SelectsIff(poll: Poll, answers: seq<string>, i: nat)
    requires i < |poll.options|
    ensures Selects(poll, answers, i) <==>
            IsFirst(poll.options, i) && poll.options[i].id in Take(answers, poll.maxSelections)
  {
    var taken := Take(answers, poll.maxSelections);
    if k :| 0 <= k < |answers| && k < poll.maxSelections && answers[k] == poll.options[i].id {
      assert taken[k] == answers[k];
    }
    if poll.options[i].id in taken {
      var k :| 0 <= k < |taken| && taken[k] == poll.options[i].id;
      assert answers[k] == taken[k];
    }
  }

  /** One option's voters after a response: the user's older vote goes, a new vote comes last. */
  function Revote(voters: seq<string>, user: string, selected: bool): seq<string> {
    Without(voters, {user}) + if selected then [user] else []
  }

  function Voted(options: seq<PollOption>, user: string, chosen: seq<string>): (r: seq<PollOption>)
    ensures |r| == |options|
  {
    seq(|options|, i requires 0 <= i < |options| =>
      options[i].(voters := Revote(options[i].voters, user, IsFirst(options, i) && options[i].id in chosen)))
  }

  /** One response: only its first `maxSelections` answers count. */
  function Answered(poll: Poll, user: string, answers: seq<string>): Poll {
    poll.(options := Voted(poll.options, user, Take(answers, poll.maxSelections)))
  }

  /** A place holding a poll that is edited in place. */
  class PollCell {
    var content: Poll

    constructor (content: Poll)
      ensures this.content == content
    {
      this.content := content;
    }
  }

  method ReplaceContent(cell: PollCell, start: PollStart) returns (r: Result<(), PollError>)
    modifies cell
    ensures cell.content == Replaced(old(cell.content), start)
    ensures ShowsStart(cell.content, start) && cell.content.completed == old(cell.content.completed)
    ensures if start.kind.Custom? then r == Err(InvalidPollType) && cell.content.pollType == old(cell.content.pollType)
            else r == Ok(())
  {
    cell.content := cell.content.(maxSelections := ClampSelections(start.maxSelections));
    cell.content := cell.content.(options := FreshOptions(start.answers));
    cell.content := cell.content.(question := start.question);
    match TryIntoChat(start.kind)
    case None => r := Err(InvalidPollType);
    case Some(t) =>
      cell.content := cell.content.(pollType := t);
      r := Ok(());
  }

  method ClearUserAnswers(cell: PollCell, user: string)
    modifies cell
    ensures cell.content == old(cell.content).(options := Voted(old(cell.content).options, user, []))
  {
    ghost var was := cell.content;
    var k := 0;
    while k < |cell.content.options|
      invariant 0 <= k <= |cell.content.options| == |was.options|
      invariant cell.content == was.(options := cell.content.options)
      invariant forall i :: 0 <= i < k ==>
        cell.content.options[i] == was.options[i].(voters := Without(was.options[i].voters, {user}))
      invariant forall i :: k <= i < |was.options| ==> cell.content.options[i] == was.options[i]
    {
      var o := cell.content.options[k];
      cell.content := cell.content.(options := cell.content.options[k := o.(voters := Without(o.voters, {user}))]);
      k := k + 1;
    }
    forall i | 0 <= i < |was.options|
      ensures cell.content.options[i] == Voted(was.options, user, [])[i]
    {
      var kept := Without(was.options[i].voters, {user});
      assert kept + [] == kept;
    }
    assert cell.content.options == Voted(was.options, user, []);
  }

  method FindOption(options: seq<PollOption>, id: string) returns (found: Option<nat>)
    ensures found.None? ==> forall i :: 0 <= i < |options| ==> options[i].id != id
    ensures found.Some? ==> found.value < |options| && options[found.value].id == id && IsFirst(options, found.value)
  {
    var k := 0;
    while k < |options|
      invariant 0 <= k <= |options|
      invariant forall i :: 0 <= i < k ==> options[i].id != id
    {
      if options[k].id == id {
        return Some(k);
      }
      k := k + 1;
    }
    return None;
  }

  /** Only votes change; the user is, last, on the options the response votes for, the others stay as they were. */
  ghost predicate VotesAfter(was: Poll, user: string, answers: seq<string>, now: Poll) {
    && SameBallot(was, now)
    && forall i :: 0 <= i < |was.options| ==>
         now.options[i].voters ==
         Without(was.options[i].voters, {user}) + if Selects(was, answers, i) then [user] else []
  }

  lemma AnsweredVotes(poll: Poll, user: string, answers: seq<string>)
    ensures VotesAfter(poll, user, answers, Answered(poll, user, answers))
  {
    forall i | 0 <= i < |poll.options|
      ensures Selects(poll, answers, i) <==>
              IsFirst(poll.options, i) && poll.options[i].id in Take(answers, poll.maxSelections)
    {
      SelectsIff(poll, answers, i);
    }
  }

  method AddAnswer(cell: PollCell, sender: string, answers: seq<string>)
    modifies cell
    ensures cell.content == Answered(old(cell.content), sender, answers)
    ensures VotesAfter(old(cell.content), sender, answers, cell.content)
  {
    ghost var was := cell.content;
    AnsweredVotes(was, sender, answers);
    ClearUserAnswers(cell, sender);
    var chosen := Take(answers, cell.content.maxSelections);
    var k := 0;
    while k < |chosen|
      invariant 0 <= k <= |chosen|
      invariant cell.content == was.(options := Voted(was.options, sender, chosen[..k]))
    {
      var options := cell.content.options;
      var found := FindOption(options, chosen[k]);
      VotedStep(was.options, sender, chosen[..k], chosen[k], found);
      assert chosen[..k + 1] == chosen[..k] + [chosen[k]];
      if found.Some? {
        var o := options[found.value];
        if sender !in o.voters {
          cell.content := cell.content.(options := options[found.value := o.(voters := o.voters + [sender])]);
        }
      }
      k := k + 1;
    }
    assert chosen[..|chosen|] == chosen;
  }

  lemma VotedStep(options: seq<PollOption>, user: string, chosen: seq<string>, id: string, found: Option<nat>)
    requires found.None? ==> forall i :: 0 <= i < |options| ==> Voted(options, user, chosen)[i].id != id
    requires found.Some? ==> found.value < |options| && options[found.value].id == id
                             && IsFirst(Voted(options, user, chosen), found.value)
    ensures var now := Voted(options, user, chosen);
            Voted(options, user, chosen + [id]) ==
            if found.None? || user in now[found.value].voters then now
            else now[found.value := now[found.value].(voters := now[found.value].voters + [user])]
  {
    var now, then_ := Voted(options, user, chosen), Voted(options, user, chosen + [id]);
    assert forall k :: 0 <= k < |options| ==> now[k].id == options[k].id;
    forall i | 0 <= i < |options|
      ensures found != Some(i) ==> then_[i] == now[i]
    {
    }
    if found.Some? {
      var f := found.value;
      var kept := Without(options[f].voters, {user});
      assert IsFirst(options, f) by {
        assert forall k :: 0 <= k < f ==> now[k].id == options[k].id;
      }
      assert kept + [] + [user] == kept + [user];
      assert then_[f] == if user in now[f].voters then now[f] else now[f].(voters := now[f].voters + [user]);
      assert then_ == now[f := then_[f]];
    } else {
      assert then_ == now;
    }
  }

  // ---- What any sequence of responses leaves behind ----

  function Fold(poll: Poll, responses: seq<Response>): (r: Poll)
    ensures |r.options| == |poll.options|
  {
    if responses == [] then poll else
      Answered(Fold(poll, Front(responses)), Last(responses).user, Last(responses).answers)
  }

  /** Two polls that differ in their voters only. */
  predicate SameBallot(p: Poll, q: Poll) {
    && p.(options := q.options) == q
    && |p.options| == |q.options|
    && forall i :: 0 <= i < |p.options| ==> p.options[i].id == q.options[i].id && p.options[i].text == q.options[i].text
  }

  predicate Unvoted(poll: Poll) {
    forall i :: 0 <= i < |poll.options| ==> poll.options[i].voters == []
  }

  /** The position of the user's last response, or -1. */
  function LastIndex(responses: seq<Response>, user: string): (j: int)
    ensures -1 <= j < |responses|
    ensures 0 <= j ==> responses[j].user == user
    ensures forall k :: j < k < |responses| ==> responses[k].user != user
  {
    if responses == [] then -1
    else if Last(responses).user == user then |responses| - 1
    else LastIndex(Front(responses), user)
  }

  /** The user's last response, if any, votes for option `i`. */
  predicate VotesFor(poll: Poll, responses: seq<Response>, user: string, i: nat)
    requires i < |poll.options|
  {
    var j := LastIndex(responses, user);
    0 <= j && Selects(poll, responses[j].answers, i)
  }

  function LastKey(responses: seq<Response>): string -> int {
    (u: string) => LastIndex(responses, u)
  }

  /** A voter list: exactly the users whose last response votes for `i`, by time of that response. */
  ghost predicate IsVoterList(poll: Poll, responses: seq<Response>, i: nat, voters: seq<string>)
    requires i < |poll.options|
  {
    && NoDuplicates(voters)
    && (forall u :: u in voters <==> VotesFor(poll, responses, u, i))
    && StrictlySortedBy(LastKey(responses), voters)
  }

  lemma {:induction false} FoldSameBallot(poll: Poll, responses: seq<Response>)
    ensures SameBallot(poll, Fold(poll, responses))
  {
    if responses == [] {
    } else {
      FoldSameBallot(poll, Front(responses));
    }
  }

  /** What one more response does to option `i`. */
  lemma FoldStep(poll: Poll, before: seq<Response>, r: Response, i: nat)
    requires i < |poll.options|
    ensures Fold(poll, before + [r]).options[i].voters ==
            Revote(Fold(poll, before).options[i].voters, r.user, Selects(poll, r.answers, i))
  {
    assert Front(before + [r]) == before;
    FoldSameBallot(poll, before);
    AnsweredVotes(Fold(poll, before), r.user, r.answers);
  }

  lemma LastIndexStep(before: seq<Response>, r: Response, u: string)
    ensures LastIndex(before + [r], u) == if u == r.user then |before| else LastIndex(before, u)
  {
    assert Front(before + [r]) == before && Last(before + [r]) == r;
  }

  lemma VoterListStep(poll: Poll, before: seq<Response>, r: Response, i: nat, v: seq<string>)
    requires i < |poll.options| && IsVoterList(poll, before, i, v)
    ensures IsVoterList(poll, before + [r], i, Revote(v, r.user, Selects(poll, r.answers, i)))
  {
    var rs, kept := before + [r], Without(v, {r.user});
    var voters := Revote(v, r.user, Selects(poll, r.answers, i));
    forall u
      ensures u in voters <==> VotesFor(poll, rs, u, i)
    {
      LastIndexStep(before, r, u);
    }
    assert StrictlySortedBy(LastKey(rs), voters) by {
      WithoutKeepsOrder(LastKey(before), v, {r.user});
      forall a | 0 <= a < |kept|
        ensures LastKey(rs)(kept[a]) == LastKey(before)(kept[a]) < |before|
      {
        assert kept[a] in kept;
        LastIndexStep(before, r, kept[a]);
      }
      LastIndexStep(before, r, r.user);
    }
    assert NoDuplicates(voters);
  }

  /** Closed form of the poll fold. */
  lemma {:induction false} FoldClosedForm(poll: Poll, responses: seq<Response>, i: nat)
    requires Unvoted(poll) && i < |poll.options|
    ensures IsVoterList(poll, responses, i, Fold(poll, responses).options[i].voters)
  {
    if responses == [] {
    } else {
      var before, r := Front(responses), Last(responses);
      assert responses == before + [r];
      FoldClosedForm(poll, before, i);
      VoterListStep(poll, before, r, i, Fold(poll, before).options[i].voters);
      FoldStep(poll, before, r, i);
    }
  }

  /** The closed form determines the list: there is no other list with these properties. */
  lemma VoterListUnique(poll: Poll, responses: seq<Response>, i: nat, v: seq<string>, w: seq<string>)
    requires i < |poll.options|
    requires IsVoterList(poll, responses, i, v) && IsVoterList(poll, responses, i, w)
    ensures v == w
  {
    SortedListingUnique(LastKey(responses), v, w, set u | u in v);
  }

  /** For option `i` both sequences of responses leave the same users, in the same order of their last responses. */
  ghost predicate SameVotes(ballot: Poll, xs: seq<Response>, ys: seq<Response>, i: nat)
    requires i < |ballot.options|
  {
    && (forall u :: VotesFor(ballot, xs, u, i) <==> VotesFor(ballot, ys, u, i))
    && (forall u, v :: VotesFor(ballot, xs, u, i) && VotesFor(ballot, xs, v, i) && LastIndex(xs, u) < LastIndex(xs, v)
          ==> LastIndex(ys, u) < LastIndex(ys, v))
  }

  lemma VotesOfList(ballot: Poll, xs: seq<Response>, ys: seq<Response>, i: nat, voters: seq<string>)
    requires i < |ballot.options| && IsVoterList(ballot, xs, i, voters) && IsVoterList(ballot, ys, i, voters)
    ensures SameVotes(ballot, xs, ys, i)
  {
    forall u, v | VotesFor(ballot, xs, u, i) && VotesFor(ballot, xs, v, i) && LastIndex(xs, u) < LastIndex(xs, v)
      ensures LastIndex(ys, u) < LastIndex(ys, v)
    {
      assert u in voters && v in voters;
      var a :| 0 <= a < |voters| && voters[a] == u;
      var b :| 0 <= b < |voters| && voters[b] == v;
      assert LastKey(xs)(voters[a]) < LastKey(xs)(voters[b]);
      assert a < b;
      assert LastKey(ys)(voters[a]) < LastKey(ys)(voters[b]);
    }
  }

  lemma ListOfVotes(ballot: Poll, xs: seq<Response>, ys: seq<Response>, i: nat, voters: seq<string>)
    requires i < |ballot.options| && IsVoterList(ballot, xs, i, voters) && SameVotes(ballot, xs, ys, i)
    ensures IsVoterList(ballot, ys, i, voters)
  {
    forall a, b | 0 <= a < b < |voters|
      ensures LastKey(ys)(voters[a]) < LastKey(ys)(voters[b])
    {
      assert voters[a] in voters && voters[b] in voters;
      assert LastKey(xs)(voters[a]) < LastKey(xs)(voters[b]);
    }
  }

  /** Exactly when two sequences of responses leave the same voters. */
  lemma VotersEqualIff(ballot: Poll, xs: seq<Response>, ys: seq<Response>, i: nat)
    requires Unvoted(ballot) && i < |ballot.options|
    ensures Fold(ballot, xs).options[i].voters == Fold(ballot, ys).options[i].voters <==> SameVotes(ballot, xs, ys, i)
  {
    var v, w := Fold(ballot, xs).options[i].voters, Fold(ballot, ys).options[i].voters;
    FoldClosedForm(ballot, xs, i);
    FoldClosedForm(ballot, ys, i);
    if v == w {
      VotesOfList(ballot, xs, ys, i, v);
    }
    if SameVotes(ballot, xs, ys, i) {
      ListOfVotes(ballot, xs, ys, i, v);
      VoterListUnique(ballot, ys, i, v, w);
    }
  }

  lemma RevoteSplit(prior: seq<string>, gone: set<string>, added: seq<string>, user: string, selected: bool)
    ensures Revote(Without(prior, gone) + added, user, selected) ==
            Without(prior, gone + {user}) + Revote(added, user, selected)
  {
    var new_ := if selected then [user] else [];
    calc {
      Revote(Without(prior, gone) + added, user, selected);
      { WithoutConcat(Without(prior, gone), added, {user}); }
      Without(Without(prior, gone), {user}) + Without(added, {user}) + new_;
      { WithoutTwice(prior, gone, {user}); }
      Without(prior, gone + {user}) + Without(added, {user}) + new_;
      Without(prior, gone + {user}) + (Without(added, {user}) + new_);
    }
  }

  lemma RevoteTwice(voters: seq<string>, user: string, selected: bool)
    ensures Revote(Revote(voters, user, selected), user, selected) == Revote(voters, user, selected)
  {
    var kept, new_ := Without(voters, {user}), if selected then [user] else [];
    WithoutConcat(kept, new_, {user});
    WithoutNothing(kept, {user});
    assert Without(new_, {user}) == [];
  }

  function Users(responses: seq<Response>): set<string> {
    set r | r in responses :: r.user
  }

  lemma UsersStep(responses: seq<Response>, r: Response)
    ensures Users(responses + [r]) == Users(responses) + {r.user}
  {
    assert forall x :: x in responses + [r] <==> x in responses || x == r;
  }

  /** One option's voters after a sequence of responses, option by option. */
  function VotersOf(poll: Poll, responses: seq<Response>, i: nat): seq<string>
    requires i < |poll.options|
    decreases |responses|
  {
    if responses == [] then poll.options[i].voters
    else
      var r := Last(responses);
      Revote(VotersOf(poll, Front(responses), i), r.user, Selects(poll, r.answers, i))
  }

  lemma {:induction false} FoldVoters(poll: Poll, responses: seq<Response>, i: nat)
    requires i < |poll.options|
    ensures Fold(poll, responses).options[i].voters == VotersOf(poll, responses, i)
    decreases |responses|
  {
    if responses == [] {
    } else {
      var before, r := Front(responses), Last(responses);
      assert responses == before + [r];
      FoldVoters(poll, before, i);
      FoldStep(poll, before, r, i);
    }
  }

  lemma {:induction false} VotersSplit(poll: Poll, before: seq<Response>, after: seq<Response>, i: nat)
    requires Unvoted(poll) && i < |poll.options|
    ensures VotersOf(poll, before + after, i) ==
            Without(VotersOf(poll, before, i), Users(after)) + VotersOf(poll, after, i)
    decreases |after|
  {
    var prior := VotersOf(poll, before, i);
    if after == [] {
      assert before + after == before;
      WithoutNothing(prior, Users(after));
      assert prior + [] == prior;
    } else {
      var a, r := Front(after), Last(after);
      assert after == a + [r];
      assert Front(before + after) == before + a && Last(before + after) == r;
      VotersSplit(poll, before, a, i);
      UsersStep(a, r);
      RevoteSplit(prior, Users(a), VotersOf(poll, a, i), r.user, Selects(poll, r.answers, i));
    }
  }

  /** Voters after `before + after`: those of `before` who did not respond again, then those of `after`. */
  lemma FoldSplit(poll: Poll, before: seq<Response>, after: seq<Response>, i: nat)
    requires Unvoted(poll) && i < |poll.options|
    ensures Fold(poll, before + after).options[i].voters ==
            Without(Fold(poll, before).options[i].voters, Users(after)) + Fold(poll, after).options[i].voters
  {
    FoldVoters(poll, before, i);
    FoldVoters(poll, after, i);
    FoldVoters(poll, before + after, i);
    VotersSplit(poll, before, after, i);
  }

  lemma AnsweredTwice(poll: Poll, user: string, answers: seq<string>)
    ensures Answered(Answered(poll, user, answers), user, answers) == Answered(poll, user, answers)
  {
    var chosen := Take(answers, poll.maxSelections);
    var once := Voted(poll.options, user, chosen);
    forall i | 0 <= i < |once|
      ensures Voted(once, user, chosen)[i] == once[i]
    {
      assert forall k :: 0 <= k < |once| ==> once[k].id == poll.options[k].id;
      RevoteTwice(poll.options[i].voters, user, IsFirst(poll.options, i) && poll.options[i].id in chosen);
    }
    assert Voted(once, user, chosen) == once;
  }

  /** Applying the latest response once more, as the response event handler does, changes nothing. */
  lemma ReapplyLatestUnchanged(poll: Poll, responses: seq<Response>)
    requires responses != []
    ensures Fold(poll, responses + [Last(responses)]) == Fold(poll, responses)
  {
    var r := Last(responses);
    assert Front(responses + [r]) == responses;
    AnsweredTwice(Fold(poll, Front(responses)), r.user, r.answers);
  }

  lemma RevoteUnchangedIff(voters: seq<string>, user: string, selected: bool)
    requires NoDuplicates(voters)
    ensures Revote(voters, user, selected) == voters <==>
            if selected then voters != [] && Last(voters) == user else user !in voters
  {
    var kept := Without(voters, {user});
    if !selected {
      assert kept + [] == kept;
      if user !in voters {
        WithoutNothing(voters, {user});
      }
    } else if voters != [] && Last(voters) == user {
      var front := Front(voters);
      assert voters == front + [user] && user !in front;
      WithoutNothing(front, {user});
    }
  }

  /**
   * The response event handler applies a response on top of an assembled poll that may hold it already. That is
   * harmless exactly if the response is the newest on every option it names and its user is on no other option.
   */
  lemma ReapplyUnchangedIff(poll: Poll, user: string, answers: seq<string>)
    requires forall i :: 0 <= i < |poll.options| ==> NoDuplicates(poll.options[i].voters)
    ensures Answered(poll, user, answers) == poll <==>
            forall i :: 0 <= i < |poll.options| ==>
              var voters := poll.options[i].voters;
              if Selects(poll, answers, i) then voters != [] && Last(voters) == user else user !in voters
  {
    var after := Answered(poll, user, answers);
    forall i | 0 <= i < |poll.options|
      ensures after.options[i] == poll.options[i] <==>
              var voters := poll.options[i].voters;
              if Selects(poll, answers, i) then voters != [] && Last(voters) == user else user !in voters
    {
      RevoteUnchangedIff(poll.options[i].voters, user, Selects(poll, answers, i));
    }
    assert after == poll <==> after.options == poll.options;
    assert after.options == poll.options <==> forall i :: 0 <= i < |poll.options| ==>
      after.options[i] == poll.options[i];
  }

  /** Re-applying a response that its user has replaced since takes back a vote of the newer one. */
  lemma OlderResponseTakesBack(
    poll: Poll, responses: seq<Response>, older: Response, i: nat)
    requires Unvoted(poll) && older in responses && i < |poll.options|
    requires VotesFor(poll, responses, older.user, i) && !Selects(poll, older.answers, i)
    ensures var p := Fold(poll, responses);
      older.user in p.options[i].voters && older.user !in Answered(p, older.user, older.answers).options[i].voters
  {
    FoldClosedForm(poll, responses, i);
    FoldSameBallot(poll, responses);
  }

  /** A poll with the options "a" and "b" and these voters. */
  function TwoOptions(a: seq<string>, b: seq<string>): Poll {
    Poll(TypeDisclosed, false, 1, "?", [PollOption("a", "A", a), PollOption("b", "B", b)])
  }

  lemma VoteOnOne(a: seq<string>, b: seq<string>, user: string, id: string)
    ensures Answered(TwoOptions(a, b), user, [id]) ==
            TwoOptions(Revote(a, user, id == "a"), Revote(b, user, id == "b"))
  {
    var poll := TwoOptions(a, b);
    assert "a"[0] != "b"[0];
    assert IsFirst(poll.options, 0) && IsFirst(poll.options, 1);
    assert Take([id], 1) == [id];
    assert Answered(poll, user, [id]).options ==
      TwoOptions(Revote(a, user, id == "a"), Revote(b, user, id == "b")).options;
  }

  /** Two responses of one user, of which the older comes again: the poll shows the older one. */
  lemma OlderResponseExample()
    ensures var p := Fold(TwoOptions([], []), [Response("u", ["a"]), Response("u", ["b"])]);
      p == TwoOptions([], ["u"]) && Answered(p, "u", ["a"]) == TwoOptions(["u"], [])
  {
    var first, second := Response("u", ["a"]), Response("u", ["b"]);
    assert "a"[0] != "b"[0];
    assert Front([first, second]) == [first] && Front([first]) == [];
    VoteOnOne([], [], "u", "a");
    VoteOnOne(["u"], [], "u", "b");
    VoteOnOne([], ["u"], "u", "a");
    assert Front(["u"]) == [] && Without([], {"u"}) == [] && Without(["u"], {"u"}) == [];
    assert Revote([], "u", true) == ["u"] && Revote([], "u", false) == [] && Revote(["u"], "u", false) == [];
    assert Fold(TwoOptions([], []), [first]) == TwoOptions(["u"], []);
  }

  /** The poll asks what the start asks; a start of unknown kind says nothing about the type. */
  predicate Asks(poll: Poll, start: PollStart) {
    && poll.maxSelections == ClampSelections(start.maxSelections) && poll.question == start.question
    && |poll.options| == |start.answers|
    && (forall i :: 0 <= i < |poll.options| ==>
          poll.options[i].id == start.answers[i].id && poll.options[i].text == start.answers[i].text)
    && (Convertible(start) ==> Some(poll.pollType) == TryIntoChat(start.kind))
  }

  /** Replacing the content of a poll is harmless exactly if it asks that already and nobody has voted. */
  lemma ReplaceUnchangedIff(poll: Poll, start: PollStart)
    ensures Replaced(poll, start) == poll <==> Asks(poll, start) && Unvoted(poll)
  {
    if Asks(poll, start) {
      SameOptionsIff(poll.options, start.answers);
    }
    if Replaced(poll, start) == poll {
      assert poll.options == FreshOptions(start.answers);
    }
  }

  /** Nobody has a vote for option `i` from these responses. */
  ghost predicate NoVotesFor(ballot: Poll, responses: seq<Response>, i: nat)
    requires i < |ballot.options|
  {
    forall u :: !VotesFor(ballot, responses, u, i)
  }

  ghost predicate NoVotes(ballot: Poll, responses: seq<Response>) {
    forall i :: 0 <= i < |ballot.options| ==> NoVotesFor(ballot, responses, i)
  }

  lemma NoVotersIff(ballot: Poll, responses: seq<Response>, i: nat)
    requires Unvoted(ballot) && i < |ballot.options|
    ensures Fold(ballot, responses).options[i].voters == [] <==> NoVotesFor(ballot, responses, i)
  {
    FoldClosedForm(ballot, responses, i);
    var voters := Fold(ballot, responses).options[i].voters;
    if voters != [] {
      assert voters[0] in voters;
    }
  }

  lemma UnvotedIff(ballot: Poll, responses: seq<Response>)
    requires Unvoted(ballot)
    ensures Unvoted(Fold(ballot, responses)) <==> NoVotes(ballot, responses)
  {
    var folded := Fold(ballot, responses);
    forall i | 0 <= i < |folded.options|
      ensures folded.options[i].voters == [] <==> NoVotesFor(ballot, responses, i)
    {
      NoVotersIff(ballot, responses, i);
    }
  }

  lemma SameOptionsIff(options: seq<PollOption>, answers: seq<Answer>)
    requires |options| == |answers|
    requires forall i :: 0 <= i < |options| ==> options[i].id == answers[i].id && options[i].text == answers[i].text
    ensures FreshOptions(answers) == options <==> forall i :: 0 <= i < |options| ==> options[i].voters == []
  {
    if forall i :: 0 <= i < |options| ==> options[i].voters == [] {
      assert forall i :: 0 <= i < |options| ==> FreshOptions(answers)[i] == options[i];
    }
  }

  // ---- No user exceeds the selection limit ----

  function VotedOptions(poll: Poll, user: string): set<int> {
    set i | 0 <= i < |poll.options| && user in poll.options[i].voters
  }

  ghost predicate WithinLimit(poll: Poll) {
    forall user :: |VotedOptions(poll, user)| <= poll.maxSelections
  }

  function SelectedBy(options: seq<PollOption>, chosen: seq<string>): set<int> {
    set i | 0 <= i < |options| && IsFirst(options, i) && options[i].id in chosen
  }

  lemma {:induction false} SelectedByAtMost(options: seq<PollOption>, chosen: seq<string>)
    ensures |SelectedBy(options, chosen)| <= |chosen|
  {
    if chosen == [] {
    } else {
      var rest := SelectedBy(options, Front(chosen));
      SelectedByAtMost(options, Front(chosen));
      assert chosen == Front(chosen) + [Last(chosen)];
      var added := SelectedBy(options, chosen) - rest;
      assert SelectedBy(options, chosen) == rest + added by {
        assert rest <= SelectedBy(options, chosen);
      }
      if i :| i in added {
        assert forall k :: k in added ==> options[k].id == Last(chosen) && (k < i || k == i || i < k);
        assert added == {i};
      }
    }
  }

  /** In-place edits of a poll, in any order; a replacement may fail on the kind. */
  datatype Edit = Replace(start: PollStart) | Respond(user: string, answers: seq<string>) | Complete

  function Edited(poll: Poll, edit: Edit): Poll {
    match edit
    case Replace(start) => Replaced(poll, start)
    case Respond(user, answers) => Answered(poll, user, answers)
    case Complete => poll.(completed := true)
  }

  function EditedAll(poll: Poll, edits: seq<Edit>): Poll {
    if edits == [] then poll else Edited(EditedAll(poll, Front(edits)), Last(edits))
  }

  lemma UnvotedWithinLimit(poll: Poll)
    requires Unvoted(poll)
    ensures WithinLimit(poll)
  {
    forall user
      ensures |VotedOptions(poll, user)| <= poll.maxSelections
    {
      assert VotedOptions(poll, user) == {};
    }
  }

  lemma AnsweredWithinLimit(poll: Poll, user: string, answers: seq<string>)
    requires WithinLimit(poll)
    ensures WithinLimit(Answered(poll, user, answers))
  {
    var q, chosen := Answered(poll, user, answers), Take(answers, poll.maxSelections);
    forall u
      ensures |VotedOptions(q, u)| <= q.maxSelections
    {
      if u == user {
        SelectedByAtMost(poll.options, chosen);
        assert VotedOptions(q, u) == SelectedBy(poll.options, chosen);
      } else {
        assert VotedOptions(q, u) == VotedOptions(poll, u);
      }
    }
  }

  /** Whatever is done to a poll, nobody ever votes for more options than allowed. */
  lemma {:induction false} EditsWithinLimit(poll: Poll, edits: seq<Edit>)
    requires WithinLimit(poll)
    ensures WithinLimit(EditedAll(poll, edits))
  {
    if edits == [] {
    } else {
      var before := EditedAll(poll, Front(edits));
      EditsWithinLimit(poll, Front(edits));
      match Last(edits)
      case Replace(start) => UnvotedWithinLimit(Replaced(before, start));
      case Respond(user, answers) => AnsweredWithinLimit(before, user, answers);
      case Complete =>
        assert forall u :: VotedOptions(before.(completed := true), u) == VotedOptions(before, u);
    }
  }

  // ---- Assembling a poll from all its relations ----

  datatype RelationKind =
    | NewStart(start: PollStart)
    | ReplacementStart(start: PollStart)
    | PollResponse(answers: seq<string>)
    | PollEnd
    | OtherKind

  datatype Relation = Relation(timestamp: int, sender: Option<string>, kind: RelationKind) {
    predicate IsStart() {
      sender.Some? && (kind.NewStart? || kind.ReplacementStart?)
    }
    predicate IsResponse() {
      sender.Some? && kind.PollResponse?
    }
    predicate IsEnd() {
      sender.Some? && kind.PollEnd?
    }
  }

  const BY_TIMESTAMP: Relation -> int := (r: Relation) => r.timestamp

  function ApplyRelation(poll: Poll, r: Relation): Result<Poll, PollError> {
    if r.IsStart() then
      if Convertible(r.kind.start) then Ok(Replaced(poll, r.kind.start)) else Err(InvalidPollType)
    else if r.IsResponse() then Ok(Answered(poll, r.sender.value, r.kind.answers))
    else if r.IsEnd() then Ok(poll.(completed := true))
    else Ok(poll)
  }

  function ApplyRelations(poll: Poll, rs: seq<Relation>): Result<Poll, PollError> {
    if rs == [] then Ok(poll) else
      match ApplyRelations(poll, Front(rs))
      case Err(e) => Err(e)
      case Ok(p) => ApplyRelation(p, Last(rs))
  }

  function Assembled(original: Option<PollStart>, relations: seq<Relation>): Result<Poll, PollError> {
    match original
    case None => Err(NotAPollStart)
    case Some(start) =>
      match AssemblePollStart(start)
      case Err(e) => Err(e)
      case Ok(poll) => ApplyRelations(poll, SortByKey(BY_TIMESTAMP, relations))
  }

  method AssemblePoll(original: Option<PollStart>, relations: seq<Relation>) returns (r: Result<Poll, PollError>)
    ensures r == Assembled(original, relations)
    ensures original.None? ==> r == Err(NotAPollStart)
  {
    if original.None? {
      return Err(NotAPollStart);
    }
    var start := AssemblePollStart(original.value);
    if start.Err? {
      return start;
    }
    var cell := new PollCell(start.value);
    var sorted := SortByKey(BY_TIMESTAMP, relations);
    for k := 0 to |sorted|
      invariant ApplyRelations(start.value, sorted[..k]) == Ok(cell.content)
    {
      assert sorted[..k + 1] == sorted[..k] + [sorted[k]];
      ApplyRelationsPrefix(start.value, sorted, k + 1);
      var applied := ApplyOneRelation(cell, sorted[k]);
      if applied.Err? {
        return Err(applied.error);
      }
    }
    assert sorted[..|sorted|] == sorted;
    return Ok(cell.content);
  }

  /** The body of the assembly loop. */
  method ApplyOneRelation(cell: PollCell, relation: Relation) returns (r: Result<(), PollError>)
    modifies cell
    ensures match ApplyRelation(old(cell.content), relation)
            case Ok(p) => r.Ok? && cell.content == p
            case Err(e) => r == Err(e)
    ensures relation.sender.None? || relation.kind.OtherKind? ==> r == Ok(()) && cell.content == old(cell.content)
  {
    r := Ok(());
    if relation.IsStart() {
      r := ReplaceContent(cell, relation.kind.start);
    } else if relation.IsResponse() {
      AddAnswer(cell, relation.sender.value, relation.kind.answers);
    } else if relation.IsEnd() {
      cell.content := cell.content.(completed := true);
    }
  }

  /** An error on a prefix is the error of the whole. */
  lemma {:induction false} ApplyRelationsPrefix(poll: Poll, rs: seq<Relation>, n: nat)
    requires n <= |rs|
    ensures ApplyRelations(poll, rs[..n]).Err? ==> ApplyRelations(poll, rs) == ApplyRelations(poll, rs[..n])
  {
    if n < |rs| {
      assert Front(rs)[..n] == rs[..n];
      ApplyRelationsPrefix(poll, Front(rs), n);
    } else {
      assert rs[..n] == rs;
    }
  }

  /** The newest poll start among the relations, and the responses newer than it. */
  function LastStart(rs: seq<Relation>): Option<PollStart> {
    if rs == [] then None
    else if Last(rs).IsStart() then Some(Last(rs).kind.start)
    else LastStart(Front(rs))
  }

  function ResponsesIn(rs: seq<Relation>): seq<Response> {
    if rs == [] then []
    else ResponsesIn(Front(rs)) +
         if Last(rs).IsResponse() then [Response(Last(rs).sender.value, Last(rs).kind.answers)] else []
  }

  function ResponsesSinceStart(rs: seq<Relation>): seq<Response> {
    if rs == [] || Last(rs).IsStart() then []
    else ResponsesSinceStart(Front(rs)) +
         if Last(rs).IsResponse() then [Response(Last(rs).sender.value, Last(rs).kind.answers)] else []
  }

  predicate HasEnd(rs: seq<Relation>) {
    exists r :: r in rs && r.IsEnd()
  }

  predicate AllConvertible(rs: seq<Relation>) {
    forall r :: r in rs && r.IsStart() ==> Convertible(r.kind.start)
  }

  function ReplacedBy(poll: Poll, start: Option<PollStart>): Poll {
    match start
    case None => poll
    case Some(s) => Replaced(poll, s)
  }

  /** The assembly succeeds exactly when every poll start it meets has a known kind. */
  lemma {:induction false} AssemblySucceedsIff(poll: Poll, rs: seq<Relation>)
    ensures ApplyRelations(poll, rs).Ok? <==> AllConvertible(rs)
  {
    if rs == [] {
    } else {
      AssemblySucceedsIff(poll, Front(rs));
      assert rs == Front(rs) + [Last(rs)];
    }
  }

  lemma {:induction false} FoldIgnoresCompleted(poll: Poll, responses: seq<Response>, completed: bool)
    ensures Fold(poll.(completed := completed), responses) == Fold(poll, responses).(completed := completed)
  {
    if responses == [] {
    } else {
      FoldIgnoresCompleted(poll, Front(responses), completed);
    }
  }

  /** Only the newest start and the responses after it matter. */
  lemma {:induction false} AssemblyClosedForm(poll: Poll, rs: seq<Relation>)
    requires AllConvertible(rs)
    ensures ApplyRelations(poll, rs) ==
            var folded := Fold(ReplacedBy(poll, LastStart(rs)), ResponsesSinceStart(rs));
            Ok(folded.(completed := poll.completed || HasEnd(rs)))
  {
    if rs == [] {
    } else {
      var front, r := Front(rs), Last(rs);
      assert rs == front + [r];
      assert HasEnd(rs) <==> HasEnd(front) || r.IsEnd();
      AssemblyClosedForm(poll, front);
      var ballot, since := ReplacedBy(poll, LastStart(front)), ResponsesSinceStart(front);
      if r.IsStart() {
        assert Replaced(ApplyRelations(poll, front).value, r.kind.start) ==
               Replaced(poll, r.kind.start).(completed := poll.completed || HasEnd(front));
      } else if r.IsResponse() {
        var added := Response(r.sender.value, r.kind.answers);
        assert Front(since + [added]) == since;
        assert ResponsesSinceStart(rs) == since + [added];
        var p, done := Fold(ballot, since), poll.completed || HasEnd(front);
        assert Fold(ballot, since + [added]) == Answered(p, added.user, added.answers);
        assert Answered(p.(completed := done), added.user, added.answers) ==
               Answered(p, added.user, added.answers).(completed := done);
      } else {
        assert since + [] == since;
      }
    }
  }
}
