/** The background sync: retry, refresh and stop, with its log of status events (src/session.rs). */
module Session {
  import opened Collections

  datatype Status = LoggedIn | NetworkUnavailable | SessionInvalid

  /** What a refresh of the access token comes to; a session that cannot be saved is only logged. */
  datatype Refresh = Refused | NoSession | Refreshed(session: string, saved: bool)

  /** What the server and the network make of one sync. */
  datatype Outcome =
    | Success(nextBatch: string)
    | ConnectionError
    | UnknownToken(softLogout: bool, refresh: Refresh)
    | OtherError

  datatype SyncError = LoggedOut | Unrecoverable

  // ---- What the log says ----

  predicate Fatal(o: Outcome) {
    match o
    case Success(_) => false
    case ConnectionError => false
    case UnknownToken(softLogout, refresh) => !softLogout || !refresh.Refreshed?
    case OtherError => true
  }

  /** Successes, connection errors and soft logouts with a refreshed session keep the loop going, nothing else. */
  predicate GoesOnAfter(o: Outcome) {
    o.Success? || o.ConnectionError? || (o.UnknownToken? && o.softLogout && o.refresh.Refreshed?)
  }

  lemma FatalIff(o: Outcome)
    ensures Fatal(o) <==> !GoesOnAfter(o)
  {
  }

  /** A hard logout: the application is told through a status, not through an error. */
  predicate LogsOut(o: Outcome) {
    o.UnknownToken? && !o.softLogout
  }

  /** The most recent outcome that says anything about the network says it is down. */
  ghost predicate Outage(outcomes: seq<Outcome>) {
    exists k :: 0 <= k < |outcomes| && outcomes[k].ConnectionError? &&
      forall j :: k < j < |outcomes| ==> !outcomes[j].Success?
  }

  lemma OutageStep(outcomes: seq<Outcome>, o: Outcome)
    ensures Outage(outcomes + [o]) <==> o.ConnectionError? || (!o.Success? && Outage(outcomes))
  {
    var all, n := outcomes + [o], |outcomes|;
    if o.ConnectionError? {
      assert all[n].ConnectionError?;
    } else if Outage(all) {
      var k :| 0 <= k < |all| && all[k].ConnectionError? && forall j :: k < j < |all| ==> !all[j].Success?;
      assert !all[n].Success?;
      assert outcomes[k].ConnectionError?;
      assert forall j :: k < j < n ==> outcomes[j] == all[j];
    }
    if !o.Success? && Outage(outcomes) {
      var k :| 0 <= k < n && outcomes[k].ConnectionError? && forall j :: k < j < n ==> !outcomes[j].Success?;
      assert all[k].ConnectionError?;
      assert forall j :: k < j < |all| ==> !all[j].Success?;
    }
  }

  /** The statuses of a run: one per start and end of an outage, and one for a hard logout. */
  ghost function Statuses(outcomes: seq<Outcome>): seq<Status>
    decreases |outcomes|
  {
    if outcomes == [] then []
    else Statuses(Front(outcomes)) + StatusOf(Outage(Front(outcomes)), Last(outcomes))
  }

  function StatusOf(outage: bool, o: Outcome): seq<Status> {
    match o
    case Success(_) => if outage then [LoggedIn] else []
    case ConnectionError => if outage then [] else [NetworkUnavailable]
    case UnknownToken(softLogout, _) => if softLogout then [] else [SessionInvalid]
    case OtherError => []
  }

  /** The sync token after a run: that of the last success. */
  function TokenAfter(token: Option<string>, outcomes: seq<Outcome>): Option<string>
    decreases |outcomes|
  {
    if outcomes == [] then token
    else if Last(outcomes).Success? then Some(Last(outcomes).nextBatch)
    else TokenAfter(token, Front(outcomes))
  }

  /** The tokens that the syncs of a run are requested with. */
  function Requests(token: Option<string>, outcomes: seq<Outcome>): seq<Option<string>>
    decreases |outcomes|
  {
    if outcomes == [] then [] else Requests(token, Front(outcomes)) + [TokenAfter(token, Front(outcomes))]
  }

  /** Each sync resumes from the batch of the last success before it, whatever failed in between. */
  lemma {:induction false} ResumesFromLastSuccess(token: Option<string>, outcomes: seq<Outcome>, i: nat, j: nat)
    requires i < j < |outcomes| && outcomes[i].Success?
    requires forall k :: i < k < j ==> !outcomes[k].Success?
    ensures |Requests(token, outcomes)| == |outcomes| && Requests(token, outcomes)[j] == Some(outcomes[i].nextBatch)
    decreases |outcomes|
  {
    var front := Front(outcomes);
    RequestsLength(token, front);
    if j < |front| {
      ResumesFromLastSuccess(token, front, i, j);
    } else {
      TokenOfSuccess(token, front, i);
    }
  }

  lemma {:induction false} RequestsLength(token: Option<string>, outcomes: seq<Outcome>)
    ensures |Requests(token, outcomes)| == |outcomes|
    decreases |outcomes|
  {
    if outcomes == [] {
    } else {
      RequestsLength(token, Front(outcomes));
    }
  }

  lemma {:induction false} TokenOfSuccess(token: Option<string>, outcomes: seq<Outcome>, i: nat)
    requires i < |outcomes| && outcomes[i].Success?
    requires forall k :: i < k < |outcomes| ==> !outcomes[k].Success?
    ensures TokenAfter(token, outcomes) == Some(outcomes[i].nextBatch)
    decreases |outcomes|
  {
    if i < |outcomes| - 1 {
      assert !outcomes[|outcomes| - 1].Success?;
      TokenOfSuccess(token, Front(outcomes), i);
    }
  }

  function SessionAfter(session: string, outcomes: seq<Outcome>): string
    decreases |outcomes|
  {
    if outcomes == [] then session
    else
      var o := Last(outcomes);
      if o.UnknownToken? && o.softLogout && o.refresh.Refreshed? then o.refresh.session
      else SessionAfter(session, Front(outcomes))
  }

  lemma RunStep(outcomes: seq<Outcome>, k: nat, token: Option<string>, session: string)
    requires k < |outcomes|
    ensures var before, now, o := outcomes[..k], outcomes[..k + 1], outcomes[k];
      && (Outage(now) <==> o.ConnectionError? || (!o.Success? && Outage(before)))
      && Statuses(now) == Statuses(before) + StatusOf(Outage(before), o)
      && TokenAfter(token, now) == (if o.Success? then Some(o.nextBatch) else TokenAfter(token, before))
      && SessionAfter(session, now) == SessionAfter(SessionAfter(session, before), [o])
      && Requests(token, now) == Requests(token, before) + [TokenAfter(token, before)]
  {
    var before, now := outcomes[..k], outcomes[..k + 1];
    assert now == before + [outcomes[k]] && Front(now) == before;
    OutageStep(before, outcomes[k]);
  }

  /** The statuses take turns, the first saying that the network is unavailable. */
  ghost predicate Alternates(log: seq<Status>) {
    forall i :: 0 <= i < |log| ==> log[i] == if i % 2 == 0 then NetworkUnavailable else LoggedIn
  }

  ghost predicate Recoverable(outcomes: seq<Outcome>) {
    forall i :: 0 <= i < |outcomes| ==> !Fatal(outcomes[i])
  }

  lemma StatusKeepsTurns(log: seq<Status>, outage: bool, o: Outcome)
    requires Alternates(log) && !Fatal(o) && (outage <==> |log| % 2 == 1)
    ensures var next := log + StatusOf(outage, o);
      Alternates(next) && (o.ConnectionError? || (!o.Success? && outage) <==> |next| % 2 == 1)
  {
  }

  /** As long as the loop runs the statuses alternate, and the last one says whether there is an outage. */
  lemma {:induction false} StatusesAlternate(outcomes: seq<Outcome>)
    requires Recoverable(outcomes)
    ensures Alternates(Statuses(outcomes))
    ensures Outage(outcomes) <==> |Statuses(outcomes)| % 2 == 1
    ensures Outage(outcomes) <==> Statuses(outcomes) != [] && Last(Statuses(outcomes)) == NetworkUnavailable
    decreases |outcomes|
  {
    if outcomes == [] {
    } else {
      var front, o := Front(outcomes), Last(outcomes);
      assert outcomes == front + [o] && !Fatal(outcomes[|front|]);
      OutageStep(front, o);
      StatusesAlternate(front);
      StatusKeepsTurns(Statuses(front), Outage(front), o);
    }
  }

  /** Of a whole run: alternation, then at most one last status saying that the session is invalid. */
  lemma StatusLogShape(outcomes: seq<Outcome>)
    requires outcomes != [] && Recoverable(Front(outcomes))
    ensures var log := Statuses(outcomes);
      if LogsOut(Last(outcomes))
      then log != [] && Last(log) == SessionInvalid && Alternates(Front(log))
      else Alternates(log)
  {
    StatusesAlternate(Front(outcomes));
    if !Fatal(Last(outcomes)) {
      StatusesAlternate(outcomes);
    } else {
      var before := Statuses(Front(outcomes));
      assert Front(before + [SessionInvalid]) == before;
      assert before + [] == before;
    }
  }

  // ---- The process ----

  class SyncProcess {
    var networkWasUnavailable: bool
    var userSession: string
    var syncToken: Option<string>
    var statuses: seq<Status>
    var errorSent: bool
    /** The tokens the syncs were requested with. */
    var requests: seq<Option<string>>

    constructor (session: string, token: Option<string>)
      ensures !networkWasUnavailable && userSession == session && syncToken == token
      ensures statuses == [] && requests == [] && !errorSent
    {
      networkWasUnavailable := false;
      userSession, syncToken := session, token;
      statuses, requests, errorSent := [], [], false;
    }

    method SyncOnce(o: Outcome) returns (r: Result<(), Outcome>)
      modifies this`requests, this`syncToken
      ensures r == if o.Success? then Ok(()) else Err(o)
      ensures requests == old(requests) + [old(syncToken)]
      ensures syncToken == if o.Success? then Some(o.nextBatch) else old(syncToken)
    {
      requests := requests + [syncToken];
      if !o.Success? {
        return Err(o);
      }
      syncToken := Some(o.nextBatch);
      return Ok(());
    }

    method ProcessSyncResult(r: Result<(), Outcome>) returns (processed: Result<(), SyncError>)
      requires r.Err? ==> !r.error.Success?
      modifies this`networkWasUnavailable, this`statuses, this`userSession
      ensures var o := if r.Ok? then Success("") else r.error;
        && processed.Err? == Fatal(o)
        && (processed == Err(LoggedOut) <==> LogsOut(o))
        && statuses == old(statuses) + StatusOf(old(networkWasUnavailable), o)
        && (networkWasUnavailable <==> o.ConnectionError? || (!o.Success? && old(networkWasUnavailable)))
        && userSession == SessionAfter(old(userSession), [o])
      ensures match r
        case Ok(_) =>
          processed == Ok(()) && statuses == old(statuses) + (if old(networkWasUnavailable) then [LoggedIn] else [])
        case Err(ConnectionError) =>
          && processed == Ok(())
          && statuses == old(statuses) + if old(networkWasUnavailable) then [] else [NetworkUnavailable]
        case Err(UnknownToken(false, _)) =>
          processed == Err(LoggedOut) && statuses == old(statuses) + [SessionInvalid]
        case Err(UnknownToken(true, Refreshed(session, _))) =>
          processed == Ok(()) && statuses == old(statuses) && userSession == session
        case Err(_) =>
          processed == Err(Unrecoverable) && statuses == old(statuses) && userSession == old(userSession)
    {
      if r.Ok? && networkWasUnavailable {
        networkWasUnavailable := false;
        statuses := statuses + [LoggedIn];
      }
      if r.Ok? {
        return Ok(());
      }
      assert [r.error] == [] + [r.error];
      if r.error.ConnectionError? {
        HandleConnectionError();
        return Ok(());
      }
      if r.error.UnknownToken? {
        processed := HandleTokenError(r.error.softLogout, r.error.refresh);
        return;
      }
      return Err(Unrecoverable);
    }

    method HandleConnectionError()
      modifies this`networkWasUnavailable, this`statuses
      ensures networkWasUnavailable
      ensures statuses == old(statuses) + if old(networkWasUnavailable) then [] else [NetworkUnavailable]
    {
      if !networkWasUnavailable {
        statuses := statuses + [NetworkUnavailable];
      }
      networkWasUnavailable := true;
    }

    method HandleTokenError(softLogout: bool, refresh: Refresh) returns (r: Result<(), SyncError>)
      modifies this`statuses, this`userSession
      ensures r == if !softLogout then Err(LoggedOut)
                   else if refresh.Refreshed? then Ok(()) else Err(Unrecoverable)
      ensures statuses == old(statuses) + if softLogout then [] else [SessionInvalid]
      ensures userSession == if softLogout && refresh.Refreshed? then refresh.session else old(userSession)
    {
      if !softLogout {
        statuses := statuses + [SessionInvalid];
        return Err(LoggedOut);
      }
      r := RefreshAccessToken(refresh);
    }

    method RefreshAccessToken(refresh: Refresh) returns (r: Result<(), SyncError>)
      modifies this`userSession
      ensures r == if refresh.Refreshed? then Ok(()) else Err(Unrecoverable)
      ensures userSession == if refresh.Refreshed? then refresh.session else old(userSession)
    {
      if !refresh.Refreshed? {
        return Err(Unrecoverable);
      }
      userSession := refresh.session;
      return Ok(());
    }

    /** One turn of the loop. */
    method Turn(o: Outcome) returns (goesOn: bool)
      modifies this
      ensures goesOn <==> !Fatal(o)
      ensures networkWasUnavailable <==> o.ConnectionError? || (!o.Success? && old(networkWasUnavailable))
      ensures statuses == old(statuses) + StatusOf(old(networkWasUnavailable), o)
      ensures errorSent == (old(errorSent) || (Fatal(o) && !LogsOut(o)))
      ensures syncToken == if o.Success? then Some(o.nextBatch) else old(syncToken)
      ensures userSession == SessionAfter(old(userSession), [o])
      ensures requests == old(requests) + [old(syncToken)]
    {
      var result := SyncOnce(o);
      var processed := ProcessSyncResult(result);
      if processed.Ok? {
        return true;
      }
      if processed.error != LoggedOut {
        errorSent := true;
      }
      return false;
    }

    /** The loop, on the outcomes of its syncs; it goes on until an outcome is fatal. */
    method BackgroundSync(outcomes: seq<Outcome>) returns (used: nat)
      requires !networkWasUnavailable && statuses == [] && requests == [] && !errorSent
      modifies this
      ensures used <= |outcomes| && (used < |outcomes| ==> used > 0 && Fatal(outcomes[used - 1]))
      ensures forall i :: 0 <= i < used - 1 ==> !Fatal(outcomes[i])
      ensures forall i :: 0 <= i < used && !GoesOnAfter(outcomes[i]) ==> i == used - 1
      ensures used < |outcomes| ==> used > 0 && !GoesOnAfter(outcomes[used - 1])
      ensures statuses == Statuses(outcomes[..used])
      ensures networkWasUnavailable <==> Outage(outcomes[..used])
      ensures errorSent <==> used > 0 && Fatal(outcomes[used - 1]) && !LogsOut(outcomes[used - 1])
      ensures syncToken == TokenAfter(old(syncToken), outcomes[..used])
      ensures userSession == SessionAfter(old(userSession), outcomes[..used])
      ensures requests == Requests(old(syncToken), outcomes[..used])
    {
      used := 0;
      while used < |outcomes|
        invariant used <= |outcomes|
        invariant forall i :: 0 <= i < used ==> !Fatal(outcomes[i])
        invariant statuses == Statuses(outcomes[..used]) && !errorSent
        invariant networkWasUnavailable <==> Outage(outcomes[..used])
        invariant syncToken == TokenAfter(old(syncToken), outcomes[..used])
        invariant userSession == SessionAfter(old(userSession), outcomes[..used])
        invariant requests == Requests(old(syncToken), outcomes[..used])
        decreases |outcomes| - used
      {
        RunStep(outcomes, used, old(syncToken), old(userSession));
        var goesOn := Turn(outcomes[used]);
        used := used + 1;
        if !goesOn {
          return;
        }
      }
    }
  }
}
