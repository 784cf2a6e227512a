/**
 * The periodic save against a running sync: which users and which sync token a crash at any step leaves on disk
 * (src/proto_cache.rs, src/session.rs, src/events.rs). Every snapshot and every file write is one step.
 */
module SaveOrder {
  import opened Collections
  import P = ProtoCache

  /** The server's stream: whose profile or presence changes at each position, if anyone's. */
  type Stream = nat -> Option<string>

  /** Cached users: for each the positions of the changes it shows, and when the list last changed. */
  datatype Copy = Copy(stamp: nat, shows: map<string, set<nat>>)

  /** `None` while no user has been cached. */
  type Version = Option<Copy>

  function Stamp(v: Version): nat {
    if v.Some? then v.value.stamp else 0
  }

  predicate Cached(v: Version, user: string) {
    v.Some? && user in v.value.shows
  }

  /** A cached user lacks its change at `p`. A user that is not cached is fetched when asked for, and lacks nothing. */
  predicate Stale(stream: Stream, v: Version, p: nat) {
    stream(p).Some? && Cached(v, stream(p).value) && p !in v.value.shows[stream(p).value]
  }

  /** A sync token: its position in the stream, and the stamp of the users in memory when it was set. */
  datatype Token = Token(position: nat, stamp: nat)

  /** A file; a write cut short, by a crash or a full disk, leaves one nothing can be read from. */
  datatype File<T> = Missing | Holding(content: T) | Torn {
    function Read(): Option<T> {
      if Holding? then Some(content) else None
    }
  }

  /** A sync: nothing, a request from a position, or a response whose events were handed on up to `to`. */
  datatype Sync = NoSync | Requested(from: nat) | Delivered(from: nat, to: nat)

  /** How far the save task is. `v` is the version the users were encoded at. */
  datatype Progress =
    | Idle
    | UsersTaken(v: Version)
    | UsersWritten(v: Version)
    | InfoTaken(v: Version, info: Option<Token>)

  datatype State = State(
    stream: Stream,
    /** The number of changes to the cached users so far, also over restarts. */
    clock: nat,
    users: Version,
    token: Option<Token>,
    sync: Sync,
    /** Whether the event handlers are set up, which is after the first sync of a start. */
    handling: bool,
    /** The positions whose changes were delivered and wait for the event executor. */
    queue: seq<nat>,
    save: Progress,
    usersFile: File<Copy>,
    infoFile: File<Option<Token>>,
    received: set<nat>)

  datatype Step =
    // A user is sent to the application, as fetched from the server or as cached before, and cached.
    | CacheUser(user: string, shows: set<nat>)
    // A cached user was compared with the server's and is updated.
    | CompareUser(user: string, shows: set<nat>)
    | SyncBegins
    // The handlers skip some changes, such as profile changes older than five seconds.
    | SyncDelivers(next: nat, skipped: set<nat>)
    | SetToken(position: nat)
    | SyncFails
    // The executor takes the next change; it drops one that repeats the last of that user.
    | Execute(sent: bool)
    | TakeUsers
    | WriteUsers(outcome: P.Outcome)
    | TakeInfo
    | WriteInfo(outcome: P.Outcome)
    | Restart

  function Initial(stream: Stream): State {
    State(stream, 0, None, None, NoSync, false, [], Idle, Missing, Missing, {})
  }

  predicate Possible(s: State, a: Step) {
    match a
    case CacheUser(_, _) => true
    case CompareUser(_, _) => true
    case SyncBegins => s.sync.NoSync?
    case SyncDelivers(next, _) => s.sync.Requested? && s.sync.from <= next
    case SetToken(position) => s.sync.Delivered? && s.sync.to == position
    case SyncFails => !s.sync.NoSync?
    case Execute(_) => s.queue != []
    case TakeUsers => s.save.Idle?
    case WriteUsers(_) => s.save.UsersTaken?
    case TakeInfo => s.save.UsersWritten?
    case WriteInfo(_) => s.save.InfoTaken?
    case Restart => true
  }

  function Position(token: Option<Token>): nat {
    if token.Some? then token.value.position else 0
  }

  /** The positions in the range that are not skipped, in order. */
  function Handled(from: nat, to: nat, skipped: set<nat>): (r: seq<nat>)
    ensures forall p :: p in r <==> from <= p < to && p !in skipped
  {
    if to <= from then [] else Handled(from, to - 1, skipped) + if to - 1 in skipped then [] else [to - 1]
  }

  function Written<T>(file: File<T>, content: T, outcome: P.Outcome): File<T> {
    match outcome
    case Wrote => Holding(content)
    case Failed => file
    case CutShort => Torn
  }

  /** The users with what one of them shows replaced. */
  function WithUser(s: State, user: string, shows: set<nat>): State {
    var others := if s.users.Some? then s.users.value.shows else map[];
    s.(clock := s.clock + 1, users := Some(Copy(s.clock + 1, others[user := shows])))
  }

  /** A change that reaches the cache; it is of no effect for a user that is not cached. */
  function WithChange(s: State, p: nat): State {
    if s.stream(p).Some? && Cached(s.users, s.stream(p).value) then
      WithUser(s, s.stream(p).value, s.users.value.shows[s.stream(p).value] + {p})
    else s
  }

  function Apply(s: State, a: Step): State
    requires Possible(s, a)
  {
    match a
    case CacheUser(user, shows) => WithUser(s, user, shows)
    case CompareUser(user, shows) => if Cached(s.users, user) then WithUser(s, user, shows) else s
    case SyncBegins => s.(sync := Requested(Position(s.token)))
    case SyncDelivers(next, skipped) =>
      s.(sync := Delivered(s.sync.from, next),
         queue := s.queue + if s.handling then Handled(s.sync.from, next, skipped) else [],
         received := s.received + Elements(Handled(s.sync.from, next, {})))
    case SetToken(position) => s.(sync := NoSync, token := Some(Token(position, Stamp(s.users))), handling := true)
    case SyncFails => s.(sync := NoSync)
    case Execute(sent) =>
      var rest := s.(queue := s.queue[1..]);
      if sent then WithChange(rest, s.queue[0]) else rest
    case TakeUsers =>
      // Without cached users there is nothing to write, and the save goes on.
      s.(save := if s.users.None? then UsersWritten(None) else UsersTaken(s.users))
    case WriteUsers(outcome) =>
      var file := if s.save.v.None? then s.usersFile else Written(s.usersFile, s.save.v.value, outcome);
      s.(usersFile := file, save := if outcome.Wrote? then UsersWritten(s.save.v) else Idle)
    case TakeInfo => s.(save := InfoTaken(s.save.v, s.token))
    case WriteInfo(outcome) => s.(infoFile := Written(s.infoFile, s.save.info, outcome), save := Idle)
    case Restart =>
      s.(users := s.usersFile.Read(), token := TokenOnDisk(s), sync := NoSync, handling := false, queue := [],
         save := Idle)
  }

  function TokenOnDisk(s: State): Option<Token> {
    if s.infoFile.Holding? then s.infoFile.content else None
  }

  // ---- Runs ----

  function Run(start: State, steps: seq<Step>): State
    decreases |steps|
  {
    if steps == [] then start
    else
      var s := Run(start, Front(steps));
      if Possible(s, Last(steps)) then Apply(s, Last(steps)) else s
  }

  predicate IsRun(start: State, steps: seq<Step>)
    decreases |steps|
  {
    steps == [] || (IsRun(start, Front(steps)) && Possible(Run(start, Front(steps)), Last(steps)))
  }

  lemma {:induction false} RunConcat(s: State, a: seq<Step>, b: seq<Step>)
    ensures IsRun(s, a + b) <==> IsRun(s, a) && IsRun(Run(s, a), b)
    ensures Run(s, a + b) == Run(Run(s, a), b)
    decreases |b|
  {
    if b == [] {
      assert a + b == a;
    } else {
      assert Front(a + b) == a + Front(b) && Last(a + b) == Last(b);
      RunConcat(s, a, Front(b));
    }
  }

  lemma RunOne(s: State, a: Step)
    ensures IsRun(s, [a]) <==> Possible(s, a)
    ensures Possible(s, a) ==> Run(s, [a]) == Apply(s, a)
  {
    assert Front([a]) == [];
  }

  lemma RunNext(s: State, steps: seq<Step>, a: Step)
    requires IsRun(s, steps) && Possible(Run(s, steps), a)
    ensures IsRun(s, steps + [a]) && Run(s, steps + [a]) == Apply(Run(s, steps), a)
  {
    RunConcat(s, steps, [a]);
    RunOne(Run(s, steps), a);
  }

  // ---- Snapshots in order ----

  /** The users on disk are no older than those in memory when the token on disk was set. */
  predicate Safe(s: State) {
    Covered(TokenOnDisk(s), s.usersFile.Read())
  }

  predicate Covered(token: Option<Token>, users: Version) {
    token.Some? ==> token.value.stamp <= Stamp(users)
  }

  /** The hypotheses: no token is set between the two snapshots, and no write of the users is cut short. */
  predicate Clean(s: State, a: Step) {
    && (a.SetToken? ==> !s.save.UsersTaken? && !s.save.UsersWritten?)
    && (a.WriteUsers? ==> !a.outcome.CutShort?)
  }

  predicate CleanRun(start: State, steps: seq<Step>)
    decreases |steps|
  {
    steps == [] || (CleanRun(start, Front(steps)) && Clean(Run(start, Front(steps)), Last(steps)))
  }

  predicate Inv(s: State) {
    && Safe(s) && Stamp(s.usersFile.Read()) <= Stamp(s.users) <= s.clock
    && Covered(s.token, s.users) && Covered(TokenOnDisk(s), s.users)
    && match s.save
       case Idle => true
       case UsersTaken(v) =>
         Stamp(s.usersFile.Read()) <= Stamp(v) <= Stamp(s.users) && Covered(s.token, v) && Covered(TokenOnDisk(s), v)
       case UsersWritten(v) =>
         Stamp(v) <= Stamp(s.users) && Covered(s.token, v) && Stamp(v) <= Stamp(s.usersFile.Read())
       case InfoTaken(v, info) =>
         Stamp(v) <= Stamp(s.users) && Covered(info, v) && Stamp(v) <= Stamp(s.usersFile.Read())
  }

  lemma InvStep(s: State, a: Step)
    requires Inv(s) && Possible(s, a) && Clean(s, a)
    ensures Inv(Apply(s, a))
  {
  }

  /** Whatever the interleaving of changes, syncs, saves and crashes, a crash at any step is safe. */
  lemma {:induction false} SafeAlways(stream: Stream, steps: seq<Step>)
    requires IsRun(Initial(stream), steps) && CleanRun(Initial(stream), steps)
    ensures Inv(Run(Initial(stream), steps)) && Safe(Run(Initial(stream), steps))
    decreases |steps|
  {
    if steps == [] {
    } else {
      SafeAlways(stream, Front(steps));
      InvStep(Run(Initial(stream), Front(steps)), Last(steps));
    }
  }

  /** What the save has written so far is on disk. */
  predicate UsersFirst(s: State) {
    (s.save.UsersWritten? || s.save.InfoTaken?) && s.save.v.Some? ==> s.usersFile == Holding(s.save.v.value)
  }

  lemma {:induction false} UsersFirstAlways(stream: Stream, steps: seq<Step>)
    requires IsRun(Initial(stream), steps)
    ensures UsersFirst(Run(Initial(stream), steps))
    decreases |steps|
  {
    if steps == [] {
    } else {
      UsersFirstAlways(stream, Front(steps));
    }
  }

  /**
   * In every run, also with races, cut writes and crashes, the info file changes only after this save's users
   * reached the disk: a failed users write keeps the token.
   */
  lemma TokenFollowsUsers(stream: Stream, steps: seq<Step>, a: Step)
    requires var s := Run(Initial(stream), steps);
      IsRun(Initial(stream), steps) && Possible(s, a) && s.infoFile != Apply(s, a).infoFile
    ensures var s := Run(Initial(stream), steps);
      && s.save.InfoTaken? && a.WriteInfo? && (s.save.v.Some? ==> s.usersFile == Holding(s.save.v.value))
      && (Apply(s, a).infoFile == Holding(s.save.info) || Apply(s, a).infoFile == Torn)
  {
    UsersFirstAlways(stream, steps);
  }

  /** A users write cut short is unsafe exactly if the token on disk was set with users in memory. */
  lemma CutShortWriteUnsafeIff(s: State)
    requires s.save.UsersTaken? && s.save.v.Some?
    ensures Safe(Apply(s, WriteUsers(P.CutShort))) <==> TokenOnDisk(s).None? || TokenOnDisk(s).value.stamp == 0
  {
  }

  /** A user is cached and a sync ends. */
  const FIRST_SYNC := [CacheUser("u", {})] + [SyncBegins] + [SyncDelivers(0, {})] + [SetToken(0)]

  /** Then both are saved, and the next save is about to write the users again. */
  const SECOND_SAVE :=
    FIRST_SYNC + [TakeUsers] + [WriteUsers(P.Wrote)] + [TakeInfo] + [WriteInfo(P.Wrote)] + [TakeUsers]

  lemma FirstSync(stream: Stream)
    ensures IsRun(Initial(stream), FIRST_SYNC)
    ensures Run(Initial(stream), FIRST_SYNC) ==
            Initial(stream).(clock := 1, users := Some(Copy(1, map["u" := {}])), token := Some(Token(0, 1)),
                             handling := true)
  {
    var s := Initial(stream);
    RunOne(s, CacheUser("u", {}));
    RunNext(s, [CacheUser("u", {})], SyncBegins);
    RunNext(s, [CacheUser("u", {})] + [SyncBegins], SyncDelivers(0, {}));
    RunNext(s, [CacheUser("u", {})] + [SyncBegins] + [SyncDelivers(0, {})], SetToken(0));
    assert Elements(Handled(0, 0, {})) == {};
  }

  /** There a write that is cut short leaves a token without the users it was set with. */
  lemma CutShortExample(stream: Stream)
    ensures IsRun(Initial(stream), SECOND_SAVE)
    ensures var s := Run(Initial(stream), SECOND_SAVE);
      s.save.UsersTaken? && Safe(s) && !Safe(Apply(s, WriteUsers(P.CutShort)))
  {
    var s := Initial(stream);
    FirstSync(stream);
    var p1 := FIRST_SYNC + [TakeUsers];
    var p2 := p1 + [WriteUsers(P.Wrote)];
    var p3 := p2 + [TakeInfo];
    var p4 := p3 + [WriteInfo(P.Wrote)];
    RunNext(s, FIRST_SYNC, TakeUsers);
    RunNext(s, p1, WriteUsers(P.Wrote));
    RunNext(s, p2, TakeInfo);
    RunNext(s, p3, WriteInfo(P.Wrote));
    RunNext(s, p4, TakeUsers);
  }

  // ---- No batch is skipped ----

  ghost predicate UpTo(s: State, n: nat) {
    forall p :: 0 <= p < n ==> p in s.received
  }

  /** Whatever position a token or a sync has, everything before it has been received in some response. */
  ghost predicate Gapless(s: State) {
    && UpTo(s, Position(s.token))
    && UpTo(s, Position(TokenOnDisk(s)))
    && (s.sync.Requested? ==> UpTo(s, s.sync.from))
    && (s.sync.Delivered? ==> UpTo(s, s.sync.to))
    && (s.save.InfoTaken? ==> UpTo(s, Position(s.save.info)))
  }

  lemma GaplessStep(s: State, a: Step)
    requires Gapless(s) && Possible(s, a)
    ensures Gapless(Apply(s, a))
  {
    var t := Apply(s, a);
    if a.SyncDelivers? {
      assert forall p :: p in t.received <==> p in s.received || s.sync.from <= p < a.next;
    } else {
      assert t.received == s.received;
    }
  }

  /**
   * Across failed syncs, failed or cut writes, races and restarts, every sync resumes where nothing is missing
   * before.
   */
  lemma {:induction false} NoBatchSkipped(stream: Stream, steps: seq<Step>)
    requires IsRun(Initial(stream), steps)
    ensures Gapless(Run(Initial(stream), steps))
    decreases |steps|
  {
    if steps == [] {
    } else {
      NoBatchSkipped(stream, Front(steps));
      GaplessStep(Run(Initial(stream), Front(steps)), Last(steps));
    }
  }

  // ---- The steps are those of the cache ----

  /** The cache in terms of the machine: `users` is the list of each copy, `tokens` the string of each token. */
  ghost predicate Depicts(s: State, cache: P.Cache, users: Copy -> seq<P.User>, tokens: Token -> string)
    reads cache
  {
    && cache.cachedUsers == Mapped(s.users, users)
    && cache.info.syncToken == Mapped(s.token, tokens)
    && UsersRead(cache) == Mapped(s.usersFile.Read(), users)
    && TokenRead(cache) == (if s.infoFile.Holding? then Some(Mapped(s.infoFile.content, tokens)) else None)
  }

  function Mapped<A, B>(a: Option<A>, f: A -> B): Option<B> {
    if a.Some? then Some(f(a.value)) else None
  }

  function UsersRead(cache: P.Cache): Option<seq<P.User>>
    reads cache
  {
    match P.UsersInFile(cache.usersFile, cache.encodings, cache.crypto, cache.passphrase)
    case Ok(users) => Some(users)
    case Err(_) => None
  }

  function TokenRead(cache: P.Cache): Option<Option<string>>
    reads cache
  {
    match P.InfoInFile(cache.infoFile, cache.encodings, cache.crypto, cache.passphrase)
    case Ok(info) => Some(info.syncToken)
    case Err(_) => None
  }

  /** A save beside which nothing happens, by what becomes of its two writes; a failed users write ends it. */
  function UndisturbedSave(s: State, users: P.Outcome, info: P.Outcome): (t: State)
    requires s.save.Idle? && (s.users.None? ==> users.Wrote?) && (users.Wrote? || info.Failed?)
    ensures t == s.(usersFile := if s.users.Some? then Written(s.usersFile, s.users.value, users) else s.usersFile,
                    infoFile := Written(s.infoFile, s.token, info))
  {
    var taken := Apply(s, TakeUsers);
    var ready := if s.users.Some? then Apply(taken, WriteUsers(users)) else taken;
    if users.Wrote? then Apply(Apply(ready, TakeInfo), WriteInfo(info)) else ready
  }

  /** The save of the cache is this sequence of steps. */
  method SaveInSteps(
    cache: P.Cache, forUsers: P.Random, usersDisk: P.Disk, forInfo: P.Random, infoDisk: P.Disk,
    ghost s: State, ghost users: Copy -> seq<P.User>, ghost tokens: Token -> string)
    returns (ghost usersOutcome: P.Outcome, ghost infoOutcome: P.Outcome)
    requires forUsers.Sized() && forInfo.Sized()
    requires P.Faithful(cache.encodings) && P.Opens(cache.crypto) && P.DetectsCuts(cache.crypto)
    requires s.save.Idle? && Depicts(s, cache, users, tokens)
    modifies cache`usersFile, cache`infoFile
    ensures (s.users.None? ==> usersOutcome.Wrote?) && (usersOutcome.Wrote? || infoOutcome.Failed?)
    ensures Depicts(UndisturbedSave(s, usersOutcome, infoOutcome), cache, users, tokens)
  {
    usersOutcome, infoOutcome := cache.Save(forUsers, usersDisk, forInfo, infoDisk);
  }

  /** A start of the cache on the files of another one is a restart. */
  method StartInStep(
    cache: P.Cache, ghost s: State, ghost users: Copy -> seq<P.User>, ghost tokens: Token -> string)
    returns (started: P.Cache)
    requires Depicts(s, cache, users, tokens)
    ensures Depicts(Apply(s, Restart), started, users, tokens)
  {
    started := new P.Cache(cache.encodings, cache.crypto, cache.passphrase, cache.usersFile, cache.infoFile);
  }
}
