/**
 * Cached users that lack a change the sync token is past: when a save leaves them on disk, when a change is lost to
 * the stream, and what brings it back (src/proto_cache.rs, src/session.rs, src/events.rs, src/user.rs).
 */
module Staleness {
  import opened Collections
  import opened SaveOrder
  import P = ProtoCache

  /** Some cached user lacks a change before this position. */
  ghost predicate BehindOf(stream: Stream, position: nat, users: Version) {
    exists p: nat :: p < position && Stale(stream, users, p)
  }

  /** The users on disk are behind the sync token on disk. */
  ghost predicate Behind(s: State) {
    BehindOf(s.stream, Position(TokenOnDisk(s)), s.usersFile.Read())
  }

  // ---- Which steps leave the disk behind ----

  /** Only the two writes change whether the disk is behind; after one cut short it is not: a file is unreadable. */
  lemma DiskBehindIff(s: State, a: Step)
    requires Possible(s, a)
    ensures Behind(Apply(s, a)) <==>
            match a
            case WriteUsers(Wrote) =>
              BehindOf(s.stream, Position(TokenOnDisk(s)), if s.save.v.Some? then s.save.v else s.usersFile.Read())
            case WriteUsers(CutShort) => s.save.v.None? && Behind(s)
            case WriteInfo(Wrote) => BehindOf(s.stream, Position(s.save.info), s.usersFile.Read())
            case WriteInfo(CutShort) => false
            case _ => Behind(s)
  {
  }

  // ---- A whole save ----

  predicate Concurrent(a: Step) {
    !a.TakeUsers? && !a.WriteUsers? && !a.TakeInfo? && !a.WriteInfo? && !a.Restart?
  }

  predicate AllConcurrent(window: seq<Step>) {
    forall i :: 0 <= i < |window| ==> Concurrent(window[i])
  }

  /** The position of the last token set. */
  function LastToken(window: seq<Step>): Option<nat> {
    if window == [] then None
    else if Last(window).SetToken? then Some(Last(window).position)
    else LastToken(Front(window))
  }

  /** The position of the token after a window. */
  function TokenAfter(s: State, window: seq<Step>): nat {
    if LastToken(window).Some? then LastToken(window).value else Position(s.token)
  }

  /** What steps beside the save do to the save, the disk and the token. */
  lemma {:induction false} WindowEffect(s: State, window: seq<Step>)
    requires IsRun(s, window) && AllConcurrent(window)
    ensures var t := Run(s, window);
      && t.save == s.save && t.usersFile == s.usersFile && t.infoFile == s.infoFile && t.stream == s.stream
      && Position(t.token) == TokenAfter(s, window)
    decreases |window|
  {
    if window == [] {
    } else {
      assert Concurrent(Last(window));
      assert forall i :: 0 <= i < |window| - 1 ==> Front(window)[i] == window[i];
      WindowEffect(s, Front(window));
    }
  }

  lemma {:induction false} LastTokenConcat(a: seq<Step>, b: seq<Step>)
    ensures LastToken(a + b) == if LastToken(b).Some? then LastToken(b) else LastToken(a)
    decreases |b|
  {
    if b == [] {
      assert a + b == a;
    } else {
      assert Front(a + b) == a + Front(b) && Last(a + b) == Last(b);
      LastTokenConcat(a, Front(b));
    }
  }

  /** The write of the users; without cached users there is none. */
  function UsersWrite(s: State): seq<Step> {
    if s.users.Some? then [WriteUsers(P.Wrote)] else []
  }

  /** A save with other steps before the users are written, before the info is taken, and before it is written. */
  function SaveSteps(s: State, w1: seq<Step>, w2: seq<Step>, w3: seq<Step>, info: P.Outcome): seq<Step> {
    SnapshotSteps(s, w1, w2) + ([TakeInfo] + (w3 + [WriteInfo(info)]))
  }

  function SnapshotSteps(s: State, w1: seq<Step>, w2: seq<Step>): seq<Step> {
    [TakeUsers] + (w1 + (UsersWrite(s) + w2))
  }

  /** The users on disk after a save that wrote them. */
  function UsersSaved(s: State): Version {
    if s.users.Some? then s.users else s.usersFile.Read()
  }

  /** The write of the users `v` that were taken, if there are any. */
  lemma WriteEffect(s: State, v: Version)
    requires s.save == if v.Some? then UsersTaken(v) else UsersWritten(None)
    ensures var t := Run(s, if v.Some? then [WriteUsers(P.Wrote)] else []);
      t == s.(save := UsersWritten(v), usersFile := if v.Some? then Holding(v.value) else s.usersFile)
  {
    RunOne(s, WriteUsers(P.Wrote));
  }

  lemma SnapshotEffect(s: State, w1: seq<Step>, w2: seq<Step>)
    requires s.save.Idle? && AllConcurrent(w1) && AllConcurrent(w2) && IsRun(s, SnapshotSteps(s, w1, w2))
    ensures var t := Run(s, SnapshotSteps(s, w1, w2));
      && t.save.UsersWritten? && t.stream == s.stream && t.infoFile == s.infoFile
      && t.usersFile.Read() == UsersSaved(s) && Position(t.token) == TokenAfter(s, w1 + w2)
  {
    RunConcat(s, [TakeUsers], w1 + (UsersWrite(s) + w2));
    RunOne(s, TakeUsers);
    var s1 := Apply(s, TakeUsers);
    RunConcat(s1, w1, UsersWrite(s) + w2);
    WindowEffect(s1, w1);
    var t1 := Run(s1, w1);
    RunConcat(t1, UsersWrite(s), w2);
    WriteEffect(t1, s.users);
    WindowEffect(Run(t1, UsersWrite(s)), w2);
    LastTokenConcat(w1, w2);
  }

  /** The position of the token on disk after a save: of the last token set before the second snapshot, if written. */
  function PositionSaved(s: State, window: seq<Step>, info: P.Outcome): nat {
    match info
    case Wrote => TokenAfter(s, window)
    case Failed => Position(TokenOnDisk(s))
    case CutShort => 0
  }

  /**
   * In any state, whatever happens beside it: a save leaves the disk behind exactly if the users in memory at its
   * first snapshot lack a change before the token it leaves on disk, which is the one at its second snapshot.
   */
  lemma SaveIsBehindIff(s: State, w1: seq<Step>, w2: seq<Step>, w3: seq<Step>, info: P.Outcome)
    requires s.save.Idle? && AllConcurrent(w1) && AllConcurrent(w2) && AllConcurrent(w3)
    requires IsRun(s, SaveSteps(s, w1, w2, w3, info))
    ensures Behind(Run(s, SaveSteps(s, w1, w2, w3, info))) <==>
            BehindOf(s.stream, PositionSaved(s, w1 + w2, info), UsersSaved(s))
  {
    RunConcat(s, SnapshotSteps(s, w1, w2), [TakeInfo] + (w3 + [WriteInfo(info)]));
    SnapshotEffect(s, w1, w2);
    var t := Run(s, SnapshotSteps(s, w1, w2));
    RunConcat(t, [TakeInfo], w3 + [WriteInfo(info)]);
    RunOne(t, TakeInfo);
    var t1 := Apply(t, TakeInfo);
    RunConcat(t1, w3, [WriteInfo(info)]);
    WindowEffect(t1, w3);
    RunOne(Run(t1, w3), WriteInfo(info));
    DiskBehindIff(Run(t1, w3), WriteInfo(info));
  }

  // ---- Why it is behind ----

  /** The change was delivered, but the event executor has not come to it: the token is set without waiting. */
  predicate Lagging(s: State, p: nat) {
    Stale(s.stream, s.users, p) && p < Position(s.token) && p in s.queue
  }

  /** The stream has passed the change by, and nothing in memory will make up for it. */
  predicate Lost(s: State, p: nat) {
    Stale(s.stream, s.users, p) && p < Position(s.token) && p !in s.queue
  }

  /** A token past the change is set between the snapshots. */
  predicate Raced(s: State, window: seq<Step>, p: nat) {
    Stale(s.stream, s.users, p) && Position(s.token) <= p < TokenAfter(s, window)
  }

  /** What requests and tokens keep to: a sync asks from the token in memory, and its batch does not go back. */
  predicate InOrder(s: State) {
    match s.sync
    case NoSync => true
    case Requested(from) => from == Position(s.token)
    case Delivered(from, to) => from == Position(s.token) <= to
  }

  lemma InOrderStep(s: State, a: Step)
    requires InOrder(s) && Possible(s, a)
    ensures InOrder(Apply(s, a)) && Apply(s, a).stream == s.stream
  {
  }

  lemma {:induction false} InOrderAlways(s: State, steps: seq<Step>)
    requires InOrder(s) && IsRun(s, steps)
    ensures InOrder(Run(s, steps)) && Run(s, steps).stream == s.stream
    decreases |steps|
  {
    if steps == [] {
    } else {
      InOrderAlways(s, Front(steps));
      InOrderStep(Run(s, Front(steps)), Last(steps));
    }
  }

  lemma {:induction false} TokenRises(s: State, steps: seq<Step>)
    requires InOrder(s) && IsRun(s, steps) && forall i :: 0 <= i < |steps| ==> !steps[i].Restart?
    ensures Position(s.token) <= Position(Run(s, steps).token)
    decreases |steps|
  {
    if steps == [] {
    } else {
      assert forall i :: 0 <= i < |steps| - 1 ==> Front(steps)[i] == steps[i];
      TokenRises(s, Front(steps));
      InOrderAlways(s, Front(steps));
    }
  }

  /** A save that succeeds leaves the disk behind exactly if some change lags, is lost, or is overtaken in a race. */
  lemma BehindBecause(s: State, w1: seq<Step>, w2: seq<Step>, w3: seq<Step>)
    requires s.save.Idle? && AllConcurrent(w1) && AllConcurrent(w2) && AllConcurrent(w3) && s.users.Some?
    requires InOrder(s) && IsRun(s, SaveSteps(s, w1, w2, w3, P.Wrote))
    ensures Behind(Run(s, SaveSteps(s, w1, w2, w3, P.Wrote))) <==>
            exists p: nat :: Lagging(s, p) || Lost(s, p) || Raced(s, w1 + w2, p)
  {
    SaveIsBehindIff(s, w1, w2, w3, P.Wrote);
    SaveRises(s, w1, w2, w3);
    if p: nat :| p < TokenAfter(s, w1 + w2) && Stale(s.stream, s.users, p) {
      assert Lagging(s, p) || Lost(s, p) || Raced(s, w1 + w2, p);
    }
    if p: nat :| Lagging(s, p) || Lost(s, p) || Raced(s, w1 + w2, p) {
      assert p < TokenAfter(s, w1 + w2) && Stale(s.stream, s.users, p);
    }
  }

  lemma SaveRises(s: State, w1: seq<Step>, w2: seq<Step>, w3: seq<Step>)
    requires s.save.Idle? && AllConcurrent(w1) && AllConcurrent(w2) && InOrder(s)
    requires IsRun(s, SaveSteps(s, w1, w2, w3, P.Wrote))
    ensures Position(s.token) <= TokenAfter(s, w1 + w2)
  {
    var steps := SnapshotSteps(s, w1, w2);
    RunConcat(s, steps, [TakeInfo] + (w3 + [WriteInfo(P.Wrote)]));
    SnapshotEffect(s, w1, w2);
    forall i | 0 <= i < |steps|
      ensures !steps[i].Restart?
    {
      assert steps[i] in steps;
      assert forall a :: a in w1 || a in w2 ==> Concurrent(a);
    }
    TokenRises(s, steps);
  }

  /** What is lost in memory a save carries to the disk, whatever happens beside it. */
  lemma LostIsSaved(s: State, p: nat, w1: seq<Step>, w2: seq<Step>, w3: seq<Step>)
    requires s.save.Idle? && AllConcurrent(w1) && AllConcurrent(w2) && AllConcurrent(w3)
    requires Lost(s, p) && InOrder(s) && IsRun(s, SaveSteps(s, w1, w2, w3, P.Wrote))
    ensures Behind(Run(s, SaveSteps(s, w1, w2, w3, P.Wrote)))
  {
    BehindBecause(s, w1, w2, w3);
  }

  // ---- When a change is lost, and what brings it back ----

  /** The step loses the change. */
  predicate Loses(s: State, a: Step, p: nat)
    requires Possible(s, a)
  {
    match a
    case CacheUser(user, shows) =>
      s.stream(p) == Some(user) && p !in shows && p < Position(s.token) && p !in s.queue
    case CompareUser(user, shows) =>
      s.stream(p) == Some(user) && Cached(s.users, user) && p !in shows && p < Position(s.token) && p !in s.queue
    case SetToken(position) => Stale(s.stream, s.users, p) && p !in s.queue && Position(s.token) <= p < position
    case Execute(sent) => !sent && Lagging(s, p) && p == s.queue[0] && p !in s.queue[1..]
    case Restart => Stale(s.stream, s.usersFile.Read(), p) && p < Position(TokenOnDisk(s))
    case _ => false
  }

  /**
   * The step brings a lost change back: the user is seen with it again, or a restart finds it on disk, finds the user
   * gone, or resumes from before it.
   */
  predicate Recovers(s: State, a: Step, p: nat) {
    match a
    case CacheUser(user, shows) => s.stream(p) == Some(user) && p in shows
    case CompareUser(user, shows) => s.stream(p) == Some(user) && p in shows
    case Restart => !Stale(s.stream, s.usersFile.Read(), p) || Position(TokenOnDisk(s)) <= p
    case _ => false
  }

  /** Exactly which steps lose a change, and which bring it back. */
  lemma LostIff(s: State, a: Step, p: nat)
    requires InOrder(s) && Possible(s, a)
    ensures Lost(Apply(s, a), p) <==> if Lost(s, p) then !Recovers(s, a, p) else Loses(s, a, p)
  {
  }

  /** None of the steps brings the change back. */
  ghost predicate NoneRecovers(s: State, p: nat, steps: seq<Step>) {
    forall k {:trigger steps[k]} :: 0 <= k < |steps| ==> !Recovers(Run(s, steps[..k]), steps[k], p)
  }

  lemma NoneRecoversPrefix(s: State, p: nat, steps: seq<Step>, n: nat)
    requires NoneRecovers(s, p, steps) && n <= |steps|
    ensures NoneRecovers(s, p, steps[..n])
  {
    forall k | 0 <= k < n
      ensures !Recovers(Run(s, steps[..n][..k]), steps[..n][k], p)
    {
      assert steps[..n][..k] == steps[..k] && steps[..n][k] == steps[k];
    }
  }

  lemma {:induction false} LostThroughout(s: State, p: nat, steps: seq<Step>)
    requires InOrder(s) && Lost(s, p) && IsRun(s, steps) && NoneRecovers(s, p, steps)
    ensures Lost(Run(s, steps), p)
    decreases |steps|
  {
    if steps == [] {
    } else {
      var n := |steps| - 1;
      NoneRecoversPrefix(s, p, steps, n);
      LostThroughout(s, p, steps[..n]);
      InOrderAlways(s, steps[..n]);
      assert steps[n] == Last(steps) && steps[..n] == Front(steps);
      LostIff(Run(s, steps[..n]), steps[n], p);
    }
  }

  /** The change is lost before and after each of the steps. */
  ghost predicate LostAllAlong(s: State, p: nat, steps: seq<Step>) {
    forall k {:trigger steps[..k]} :: 0 <= k <= |steps| ==> Lost(Run(s, steps[..k]), p)
  }

  /** A lost change stays lost exactly until a step that brings it back. */
  lemma LostUntilIff(s: State, p: nat, steps: seq<Step>)
    requires InOrder(s) && Lost(s, p) && IsRun(s, steps)
    ensures LostAllAlong(s, p, steps) <==> NoneRecovers(s, p, steps)
  {
    if NoneRecovers(s, p, steps) {
      forall k | 0 <= k <= |steps|
        ensures Lost(Run(s, steps[..k]), p)
      {
        PrefixRun(s, steps, k);
        NoneRecoversPrefix(s, p, steps, k);
        LostThroughout(s, p, steps[..k]);
      }
    }
    if LostAllAlong(s, p, steps) {
      forall k | 0 <= k < |steps|
        ensures !Recovers(Run(s, steps[..k]), steps[k], p)
      {
        LostNext(s, p, steps, k);
      }
    }
  }

  lemma LostNext(s: State, p: nat, steps: seq<Step>, k: nat)
    requires InOrder(s) && IsRun(s, steps) && k < |steps|
    requires Lost(Run(s, steps[..k]), p) && Lost(Run(s, steps[..k + 1]), p)
    ensures !Recovers(Run(s, steps[..k]), steps[k], p)
  {
    PrefixRun(s, steps, k);
    InOrderAlways(s, steps[..k]);
    LostIff(Run(s, steps[..k]), steps[k], p);
  }

  /** A prefix of a run is a run, and its next step is possible. */
  lemma PrefixRun(s: State, steps: seq<Step>, k: nat)
    requires IsRun(s, steps) && k <= |steps|
    ensures IsRun(s, steps[..k])
    ensures k < |steps| ==>
      Possible(Run(s, steps[..k]), steps[k]) && Run(s, steps[..k + 1]) == Apply(Run(s, steps[..k]), steps[k])
  {
    assert steps == steps[..k] + steps[k..];
    RunConcat(s, steps[..k], steps[k..]);
    if k < |steps| {
      assert steps == steps[..k + 1] + steps[k + 1..];
      RunConcat(s, steps[..k + 1], steps[k + 1..]);
      assert Front(steps[..k + 1]) == steps[..k] && Last(steps[..k + 1]) == steps[k];
    }
  }

  /** A restart loses exactly what the users on disk lack before the token on disk: something iff the disk is behind. */
  lemma RestartLosesIff(s: State, p: nat)
    ensures Lost(Apply(s, Restart), p) <==> Stale(s.stream, s.usersFile.Read(), p) && p < Position(TokenOnDisk(s))
    ensures (exists q: nat :: Lost(Apply(s, Restart), q)) <==> Behind(s)
  {
    var t := Apply(s, Restart);
    assert forall q: nat :: Lost(t, q) <==> Stale(s.stream, s.usersFile.Read(), q) && q < Position(TokenOnDisk(s));
  }

  /** A sync, beside which nothing happens. */
  function SyncSteps(next: nat, skipped: set<nat>): seq<Step> {
    [SyncBegins] + [SyncDelivers(next, skipped)] + [SetToken(next)]
  }

  lemma SyncEffect(s: State, next: nat, skipped: set<nat>)
    requires s.sync.NoSync? && Position(s.token) <= next
    ensures IsRun(s, SyncSteps(next, skipped))
    ensures var t, batch := Run(s, SyncSteps(next, skipped)), Handled(Position(s.token), next, skipped);
      t == s.(queue := s.queue + if s.handling then batch else [], token := Some(Token(next, Stamp(s.users))),
              handling := true, received := t.received)
  {
    RunOne(s, SyncBegins);
    RunNext(s, [SyncBegins], SyncDelivers(next, skipped));
    RunNext(s, [SyncBegins] + [SyncDelivers(next, skipped)], SetToken(next));
  }

  /**
   * A sync passes by the changes its handlers skip. The first sync after a start passes by all: the handlers are set
   * up only when it is over.
   */
  lemma SyncLosesIff(s: State, next: nat, skipped: set<nat>, p: nat)
    requires s.sync.NoSync? && Position(s.token) <= next
    ensures Lost(Run(s, SyncSteps(next, skipped)), p) <==>
            && Stale(s.stream, s.users, p) && p !in s.queue
            && (p < Position(s.token) || (p < next && (!s.handling || p in skipped)))
  {
    SyncEffect(s, next, skipped);
  }

  function Drain(n: nat): seq<Step> {
    if n == 0 then [] else [Execute(true)] + Drain(n - 1)
  }

  /** Once the executor has come to all that was delivered, dropping nothing, no cached user lacks it. */
  lemma {:induction false} DrainShows(s: State)
    ensures IsRun(s, Drain(|s.queue|))
    ensures var t := Run(s, Drain(|s.queue|));
      && t.queue == [] && t.token == s.token && t.stream == s.stream
      && forall p :: Stale(t.stream, t.users, p) <==> Stale(s.stream, s.users, p) && p !in s.queue
    decreases |s.queue|
  {
    if s.queue == [] {
    } else {
      var next := Apply(s, Execute(true));
      RunOne(s, Execute(true));
      RunConcat(s, [Execute(true)], Drain(|s.queue| - 1));
      assert forall p :: Stale(next.stream, next.users, p) <==> Stale(s.stream, s.users, p) && p != s.queue[0];
      DrainShows(next);
    }
  }

  /** After a restart and its first sync the changes up to that sync's end are lost, unless they are on disk. */
  lemma FirstSyncLosesIff(s: State, next: nat, skipped: set<nat>, p: nat)
    requires Position(TokenOnDisk(s)) <= next
    ensures Lost(Run(Apply(s, Restart), SyncSteps(next, skipped)), p) <==>
            Stale(s.stream, s.usersFile.Read(), p) && p < next
  {
    SyncLosesIff(Apply(s, Restart), next, skipped, p);
  }

  // ---- Without these the disk is never behind ----

  /** No change is lost, none lags at the first snapshot of a save, and none is overtaken before the second. */
  ghost predicate Prompt(s: State, a: Step)
    requires Possible(s, a)
  {
    && (forall p: nat :: !Loses(s, a, p))
    && (a.TakeUsers? ==> forall p: nat :: !Lagging(s, p))
    && (a.SetToken? && (s.save.UsersTaken? || s.save.UsersWritten?) ==> !BehindOf(s.stream, a.position, s.save.v))
  }

  ghost predicate PromptRun(start: State, steps: seq<Step>)
    requires IsRun(start, steps)
    decreases |steps|
  {
    steps == [] || (PromptRun(start, Front(steps)) && Prompt(Run(start, Front(steps)), Last(steps)))
  }

  ghost predicate NothingLost(s: State) {
    forall p: nat :: !Lost(s, p)
  }

  /** No snapshot is behind the token it may be saved with. */
  ghost predicate UpToDate(s: State) {
    && !Behind(s) && Position(TokenOnDisk(s)) <= Position(s.token)
    && (s.users.None? ==> s.usersFile.Read().None?)
    && match s.save
       case Idle => true
       case UsersTaken(v) => v.Some? && s.users.Some? && !BehindOf(s.stream, Position(s.token), v)
       case UsersWritten(v) => !BehindOf(s.stream, Position(s.token), v) && s.usersFile.Read() == v
       case InfoTaken(v, info) =>
         !BehindOf(s.stream, Position(info), v) && s.usersFile.Read() == v && Position(info) <= Position(s.token)
  }

  /** The users in memory lack a change before the token in memory exactly if one lags or is lost. */
  lemma MemoryBehindIff(s: State)
    ensures BehindOf(s.stream, Position(s.token), s.users) <==> exists p: nat :: Lagging(s, p) || Lost(s, p)
  {
    if p: nat :| p < Position(s.token) && Stale(s.stream, s.users, p) {
      assert Lagging(s, p) || Lost(s, p);
    }
  }

  lemma BehindLess(stream: Stream, n: nat, m: nat, v: Version)
    requires n <= m && !BehindOf(stream, m, v)
    ensures !BehindOf(stream, n, v)
  {
  }

  lemma NothingLostStep(s: State, a: Step)
    requires InOrder(s) && NothingLost(s) && Possible(s, a) && Prompt(s, a)
    ensures NothingLost(Apply(s, a))
  {
    forall p: nat
      ensures !Lost(Apply(s, a), p)
    {
      LostIff(s, a, p);
      assert !Lost(s, p) && !Loses(s, a, p);
    }
  }

  lemma UpToDateStep(s: State, a: Step)
    requires InOrder(s) && NothingLost(s) && UpToDate(s) && Possible(s, a) && Prompt(s, a)
    ensures UpToDate(Apply(s, a))
  {
    DiskBehindIff(s, a);
    if a.TakeUsers? {
      MemoryBehindIff(s);
    }
    if s.save.UsersTaken? {
      BehindLess(s.stream, Position(TokenOnDisk(s)), Position(s.token), s.save.v);
    }
  }

  /** In every run that keeps to this, crashes and cut files included, the users on disk are never behind the token. */
  lemma {:induction false} NeverBehind(stream: Stream, steps: seq<Step>)
    requires IsRun(Initial(stream), steps) && PromptRun(Initial(stream), steps)
    ensures !Behind(Run(Initial(stream), steps))
    ensures NothingLost(Run(Initial(stream), steps)) && UpToDate(Run(Initial(stream), steps))
    decreases |steps|
  {
    if steps == [] {
    } else {
      NeverBehind(stream, Front(steps));
      InOrderAlways(Initial(stream), Front(steps));
      NothingLostStep(Run(Initial(stream), Front(steps)), Last(steps));
      UpToDateStep(Run(Initial(stream), Front(steps)), Last(steps));
    }
  }

  // ---- Each way at a concrete run ----

  lemma UndisturbedSaveRuns(s: State)
    requires s.save.Idle? && s.users.Some?
    ensures IsRun(s, SaveSteps(s, [], [], [], P.Wrote))
    ensures Run(s, SaveSteps(s, [], [], [], P.Wrote)) ==
            s.(usersFile := Holding(s.users.value), infoFile := Holding(s.token))
  {
    var p1, p2 := [TakeUsers] + [WriteUsers(P.Wrote)], [TakeUsers] + [WriteUsers(P.Wrote)] + [TakeInfo];
    assert SaveSteps(s, [], [], [], P.Wrote) == p2 + [WriteInfo(P.Wrote)];
    RunOne(s, TakeUsers);
    RunNext(s, [TakeUsers], WriteUsers(P.Wrote));
    RunNext(s, p1, TakeInfo);
    RunNext(s, p2, WriteInfo(P.Wrote));
  }

  /** One user, who changes all the time. */
  function OneUser(): Stream {
    (p: nat) => Some("u")
  }

  /** A batch with one change arrives after the user was cached. */
  const SECOND_SYNC := FIRST_SYNC + SyncSteps(1, {})

  /** The token is set before the executor comes to the change: a save beside which nothing happens is behind. */
  lemma LagExample()
    ensures IsRun(Initial(OneUser()), SECOND_SYNC)
    ensures var s := Run(Initial(OneUser()), SECOND_SYNC); var steps := SaveSteps(s, [], [], [], P.Wrote);
      s.save.Idle? && Lagging(s, 0) && IsRun(s, steps) && Behind(Run(s, steps))
  {
    var s0 := Initial(OneUser());
    FirstSync(OneUser());
    RunConcat(s0, FIRST_SYNC, SyncSteps(1, {}));
    SyncEffect(Run(s0, FIRST_SYNC), 1, {});
    var s := Run(s0, SECOND_SYNC);
    assert Handled(0, 1, {}) == [0];
    UndisturbedSaveRuns(s);
    assert Stale(s.stream, s.users, 0);
  }

  /** The change and the token come between the snapshots. */
  const RACE := [SyncBegins] + [SyncDelivers(1, {})] + [Execute(true)] + [SetToken(1)]

  lemma RaceRuns(s: State)
    requires s.sync.NoSync? && Position(s.token) == 0 && s.queue == [] && s.handling
    ensures IsRun(s, RACE) && AllConcurrent(RACE) && TokenAfter(s, RACE) == 1
  {
    assert Handled(0, 1, {}) == [0];
    RunOne(s, SyncBegins);
    RunNext(s, [SyncBegins], SyncDelivers(1, {}));
    RunNext(s, [SyncBegins] + [SyncDelivers(1, {})], Execute(true));
    RunNext(s, [SyncBegins] + [SyncDelivers(1, {})] + [Execute(true)], SetToken(1));
    assert Last(RACE) == SetToken(1);
  }

  /** Even if the executor is in time, the users were taken before the change and the token after it. */
  lemma RaceExample()
    ensures IsRun(Initial(OneUser()), FIRST_SYNC)
    ensures var s := Run(Initial(OneUser()), FIRST_SYNC); var steps := SaveSteps(s, RACE, [], [], P.Wrote);
      s.save.Idle? && Raced(s, RACE, 0) && IsRun(s, steps) && Behind(Run(s, steps))
  {
    FirstSync(OneUser());
    var s := Run(Initial(OneUser()), FIRST_SYNC);
    RaceRuns(s);
    SaveWithRaceRuns(s);
    assert RACE + [] == RACE;
    SaveIsBehindIff(s, RACE, [], [], P.Wrote);
    assert Stale(s.stream, s.users, 0);
  }

  lemma SaveWithRaceRuns(s: State)
    requires s.save.Idle? && s.users.Some? && s.sync.NoSync? && Position(s.token) == 0 && s.queue == [] && s.handling
    ensures IsRun(s, SaveSteps(s, RACE, [], [], P.Wrote))
  {
    var p := [TakeUsers] + RACE;
    var p1, p2 := p + [WriteUsers(P.Wrote)], p + [WriteUsers(P.Wrote)] + [TakeInfo];
    assert SaveSteps(s, RACE, [], [], P.Wrote) == p2 + [WriteInfo(P.Wrote)];
    RunOne(s, TakeUsers);
    RunConcat(s, [TakeUsers], RACE);
    RaceRuns(Apply(s, TakeUsers));
    WindowEffect(Apply(s, TakeUsers), RACE);
    RunNext(s, p, WriteUsers(P.Wrote));
    RunNext(s, p1, TakeInfo);
    RunNext(s, p2, WriteInfo(P.Wrote));
  }

  /** A save that leaves the disk up to date, and a restart whose first sync brings a change. */
  function RestartSteps(s: State): seq<Step> {
    SaveSteps(s, [], [], [], P.Wrote) + [Restart] + SyncSteps(1, {})
  }

  /** The first sync after a start loses a change although no save raced or lagged and nothing was skipped. */
  lemma FirstSyncExample()
    ensures IsRun(Initial(OneUser()), FIRST_SYNC)
    ensures var s := Run(Initial(OneUser()), FIRST_SYNC);
      && s.save.Idle? && s.users.Some? && IsRun(s, RestartSteps(s))
      && !Behind(Run(s, SaveSteps(s, [], [], [], P.Wrote))) && Lost(Run(s, RestartSteps(s)), 0)
  {
    FirstSync(OneUser());
    var s := Run(Initial(OneUser()), FIRST_SYNC);
    UndisturbedSaveRuns(s);
    var save := SaveSteps(s, [], [], [], P.Wrote);
    RunNext(s, save, Restart);
    RunConcat(s, save + [Restart], SyncSteps(1, {}));
    SyncEffect(Apply(Run(s, save), Restart), 1, {});
    FirstSyncLosesIff(Run(s, save), 1, {}, 0);
    assert Stale(s.stream, s.users, 0);
  }
}
