/**
 * Caching and removing reactions from concurrent tasks (src/memory_cache.rs): one step per lock acquisition or
 * release. Messages hold reactions; the index maps a reaction id to the message holding it.
 */
module ReactionIndex {
  import opened Collections

  type Id = string
  type Task = int

  /** Where a task stands. The comment says which locks it holds. */
  datatype Pc =
    | Idle                                                          // none
    | Caching(m: Id, r: Id)                                         // messages; reaction inserted
    | Indexed(m: Id, r: Id)                                         // messages, index; entry inserted
    | LookingUp(r: Id)                                              // none
    | LookedUp(r: Id, found: Option<Id>)                            // index
    | Removing(r: Id, m: Id)                                        // none
    | Checking(r: Id, m: Id)                                        // messages
    | Removed(r: Id, stamp: nat)                                    // messages; reaction removed
    | Cleaned(r: Id, stamp: nat)                                    // messages, index; entry removed
    | Returning(stamp: nat)                                         // messages
    | Extracted(todo: seq<Id>, first: Option<nat>)                  // messages; reactions removed
    | Cleaning(todo: seq<Id>, first: Option<nat>)                   // messages, index; entry of the first removed

  /** Every caching of a reaction gets a new stamp; `handed` are the stamps returned by removals. */
  datatype State = State(
    reactions: map<Id, map<Id, nat>>,
    index: map<Id, Id>,
    messagesLock: Option<Task>,
    indexLock: Option<Task>,
    pcs: map<Task, Pc>,
    next: nat,
    handed: seq<nat>)

  function PcOf(s: State, t: Task): Pc {
    if t in s.pcs then s.pcs[t] else Idle
  }

  function ReactionsOf(s: State, m: Id): map<Id, nat> {
    if m in s.reactions then s.reactions[m] else map[]
  }

  predicate Holds(s: State, m: Id, r: Id) {
    r in ReactionsOf(s, m)
  }

  predicate HoldsMessages(pc: Pc) {
    pc.Caching? || pc.Indexed? || pc.Checking? || pc.Removed? || pc.Cleaned? || pc.Returning?
    || pc.Extracted? || pc.Cleaning?
  }

  predicate HoldsIndex(pc: Pc) {
    pc.Indexed? || pc.LookedUp? || pc.Cleaned? || pc.Cleaning?
  }

  predicate Init(s: State) {
    s == State(map[], map[], None, None, map[], 0, [])
  }

  /** What a task does next: an idle one starts an operation, any other proceeds with its own. */
  datatype Action = StartCaching(m: Id, r: Id) | StartRemoving(r: Id) | StartExtracting(m: Id, todo: seq<Id>) | Proceed

  function Target(s: State, t: Task, a: Action): Pc {
    match PcOf(s, t)
    case Idle =>
      (match a
       case StartCaching(m, r) => Caching(m, r)
       case StartRemoving(r) => LookingUp(r)
       case StartExtracting(m, todo) =>
         Extracted(todo, if todo != [] && Holds(s, m, todo[0]) then Some(ReactionsOf(s, m)[todo[0]]) else None)
       case Proceed => Idle)
    case Caching(m, r) => Indexed(m, r)
    case Indexed(_, _) => Idle
    case LookingUp(r) => LookedUp(r, if r in s.index then Some(s.index[r]) else None)
    case LookedUp(r, found) => if found.Some? then Removing(r, found.value) else Idle
    case Removing(r, m) => Checking(r, m)
    case Checking(r, m) => if Holds(s, m, r) then Removed(r, ReactionsOf(s, m)[r]) else Idle
    case Removed(r, stamp) => Cleaned(r, stamp)
    case Cleaned(_, stamp) => Returning(stamp)
    case Returning(_) => Idle
    case Extracted(todo, first) => if todo == [] then Idle else Cleaning(todo, first)
    case Cleaning(todo, first) => Extracted(if todo == [] then [] else todo[1..], first)
  }

  /** Moving to `pc` takes the locks it names, which must be free, and releases those it does not. */
  function Goto(s: State, t: Task, pc: Pc): State {
    s.(pcs := s.pcs[t := pc],
       messagesLock := if HoldsMessages(pc) then Some(t)
                       else if HoldsMessages(PcOf(s, t)) then None else s.messagesLock,
       indexLock := if HoldsIndex(pc) then Some(t) else if HoldsIndex(PcOf(s, t)) then None else s.indexLock)
  }

  predicate LocksFree(s: State, t: Task, pc: Pc) {
    && (HoldsMessages(pc) && !HoldsMessages(PcOf(s, t)) ==> s.messagesLock.None?)
    && (HoldsIndex(pc) && !HoldsIndex(PcOf(s, t)) ==> s.indexLock.None?)
  }

  /** Ids in `home` are only ever cached for that message; an extraction takes any reactions, in any order. */
  ghost predicate Possible(home: map<Id, Id>, s: State, t: Task, a: Action) {
    && LocksFree(s, t, Target(s, t, a))
    && if !PcOf(s, t).Idle? then a == Proceed else
       match a
       case StartCaching(m, r) => r in home ==> home[r] == m
       case StartRemoving(_) => true
       case StartExtracting(m, todo) => NoDuplicates(todo) && forall r :: r in todo ==> Holds(s, m, r)
       case Proceed => false
  }

  function Apply(s: State, t: Task, a: Action): State {
    var s' := Goto(s, t, Target(s, t, a));
    match PcOf(s, t)
    case Idle =>
      (match a
       case StartCaching(m, r) =>
         s'.(reactions := s.reactions[m := ReactionsOf(s, m)[r := s.next]], next := s.next + 1)
       case StartExtracting(m, todo) => s'.(reactions := s.reactions[m := ReactionsOf(s, m) - Elements(todo)])
       case _ => s')
    case Caching(m, r) => s'.(index := s.index[r := m])
    case Checking(r, m) =>
      if Holds(s, m, r) then s'.(reactions := s.reactions[m := ReactionsOf(s, m) - {r}]) else s'
    case Removed(r, _) => s'.(index := s.index - {r})
    case Returning(stamp) => s'.(handed := s.handed + [stamp])
    case Extracted(todo, first) =>
      if todo != [] then s'.(index := s.index - {todo[0]})
      else if first.Some? then s'.(handed := s.handed + [first.value])
      else s'
    case _ => s'
  }

  // ---- Invariants ----

  /** The locks are held by the tasks that say so: at most one task each. */
  ghost predicate LocksAgree(s: State) {
    forall t :: (s.messagesLock == Some(t) <==> HoldsMessages(PcOf(s, t)))
      && (s.indexLock == Some(t) <==> HoldsIndex(PcOf(s, t)))
  }

  /** What the holder of the messages lock is doing. */
  function Holder(s: State): Pc {
    if s.messagesLock.Some? then PcOf(s, s.messagesLock.value) else Idle
  }

  /** Ids whose reaction is gone but whose entry is still to be removed. */
  function Stale(pc: Pc): set<Id> {
    match pc
    case Removed(r, _) => {r}
    case Extracted(todo, _) => Elements(todo)
    case Cleaning(todo, _) => if todo == [] then {} else Elements(todo[1..])
    case _ => {}
  }

  /** Every entry points to a message that holds the reaction, but for stale ones. */
  ghost predicate EntriesHold(s: State) {
    forall r :: r in s.index && r !in Stale(Holder(s)) ==> Holds(s, s.index[r], r)
  }

  /** Reactions with a home are held there only, and indexed, but for one just being inserted. */
  ghost predicate HomesIndexed(home: map<Id, Id>, s: State) {
    forall m, r :: Holds(s, m, r) && r in home ==>
      && home[r] == m && r !in Stale(Holder(s))
      && ((r in s.index && s.index[r] == m) || Holder(s) == Caching(m, r))
  }

  /** What was looked up for an id with a home is its home. */
  ghost predicate LookupsHome(home: map<Id, Id>, s: State) {
    forall t :: match PcOf(s, t)
                case LookedUp(r, Some(m)) => r in home ==> home[r] == m
                case Removing(r, m) => r in home ==> home[r] == m
                case Checking(r, m) => r in home ==> home[r] == m
                case _ => true
  }

  ghost predicate NeverIndexedElsewhere(home: map<Id, Id>, s: State) {
    forall r :: r in s.index && r in home ==> s.index[r] == home[r]
  }

  /** The stamp the holder is about to return. */
  function InHand(pc: Pc): set<nat> {
    match pc
    case Removed(_, stamp) => {stamp}
    case Cleaned(_, stamp) => {stamp}
    case Returning(stamp) => {stamp}
    case Extracted(_, Some(stamp)) => {stamp}
    case Cleaning(_, Some(stamp)) => {stamp}
    case _ => {}
  }

  /** Live, in-hand and returned stamps are all different, and older than `next`. */
  ghost predicate StampsFresh(s: State) {
    && (forall m, r :: Holds(s, m, r) ==> ReactionsOf(s, m)[r] < s.next
                                          && ReactionsOf(s, m)[r] !in s.handed
                                          && ReactionsOf(s, m)[r] !in InHand(Holder(s)))
    && (forall x :: x in InHand(Holder(s)) ==> x < s.next && x !in s.handed)
    && (forall x :: x in s.handed ==> x < s.next) && NoDuplicates(s.handed)
  }

  ghost predicate LiveStampsDistinct(s: State) {
    forall m, r, n, q :: Holds(s, m, r) && Holds(s, n, q) && ReactionsOf(s, m)[r] == ReactionsOf(s, n)[q] ==>
      m == n && r == q
  }

  /** What the holder of the messages lock relies on. */
  ghost predicate HolderReady(s: State) {
    match Holder(s)
    case Caching(m, r) => Holds(s, m, r)
    case Extracted(todo, _) => NoDuplicates(todo)
    case Cleaning(todo, _) => todo != [] && NoDuplicates(todo)
    case _ => true
  }

  // ---- Locks ----

  lemma GotoLocks(s: State, t: Task, pc: Pc)
    requires LocksAgree(s) && LocksFree(s, t, pc)
    ensures LocksAgree(Goto(s, t, pc))
  {
    var s' := Goto(s, t, pc);
    forall u
      ensures (s'.messagesLock == Some(u) <==> HoldsMessages(PcOf(s', u)))
        && (s'.indexLock == Some(u) <==> HoldsIndex(PcOf(s', u)))
    {
      assert u != t ==> PcOf(s', u) == PcOf(s, u);
    }
  }

  /** Each lock is held by one task at a time. */
  lemma LocksKept(s: State, t: Task, a: Action)
    requires LocksAgree(s) && LocksFree(s, t, Target(s, t, a))
    ensures LocksAgree(Apply(s, t, a))
  {
    GotoLocks(s, t, Target(s, t, a));
    var g, s' := Goto(s, t, Target(s, t, a)), Apply(s, t, a);
    assert s'.pcs == g.pcs && s'.messagesLock == g.messagesLock && s'.indexLock == g.indexLock;
    assert forall u :: PcOf(s', u) == PcOf(g, u);
  }

  lemma HolderMoves(s: State, t: Task, a: Action)
    requires LocksAgree(s) && LocksFree(s, t, Target(s, t, a))
    ensures var pc, pc' := PcOf(s, t), Target(s, t, a);
            && Holder(Apply(s, t, a)) ==
              (if HoldsMessages(pc') then pc' else if HoldsMessages(pc) then Idle else Holder(s))
            && (HoldsMessages(pc) ==> Holder(s) == pc)
            && (HoldsMessages(pc') && !HoldsMessages(pc) ==> Holder(s) == Idle)
  {
    LocksKept(s, t, a);
    assert s.messagesLock == Some(t) <==> HoldsMessages(PcOf(s, t));
    if s.messagesLock.Some? && s.messagesLock.value != t {
      assert PcOf(Apply(s, t, a), s.messagesLock.value) == PcOf(s, s.messagesLock.value);
    }
  }

  lemma ReadyKept(home: map<Id, Id>, s: State, t: Task, a: Action)
    requires LocksAgree(s) && HolderReady(s) && Possible(home, s, t, a)
    ensures HolderReady(Apply(s, t, a))
  {
    HolderMoves(s, t, a);
  }

  lemma EntriesKept(home: map<Id, Id>, s: State, t: Task, a: Action)
    requires LocksAgree(s) && HolderReady(s) && EntriesHold(s) && Possible(home, s, t, a)
    ensures EntriesHold(Apply(s, t, a))
  {
    HolderMoves(s, t, a);
    var s' := Apply(s, t, a);
    forall r | r in s'.index && r !in Stale(Holder(s'))
      ensures Holds(s', s'.index[r], r)
    {
      EntryKept(home, s, t, a, r);
    }
  }

  lemma EntryKept(home: map<Id, Id>, s: State, t: Task, a: Action, r: Id)
    requires LocksAgree(s) && HolderReady(s) && EntriesHold(s) && Possible(home, s, t, a)
    requires r in Apply(s, t, a).index && r !in Stale(Holder(Apply(s, t, a)))
    ensures Holds(Apply(s, t, a), Apply(s, t, a).index[r], r)
  {
    HolderMoves(s, t, a);
  }

  lemma LookupsKept(home: map<Id, Id>, s: State, t: Task, a: Action)
    requires LookupsHome(home, s) && NeverIndexedElsewhere(home, s)
    ensures LookupsHome(home, Apply(s, t, a))
  {
    var s' := Apply(s, t, a);
    assert s'.pcs == s.pcs[t := Target(s, t, a)];
    forall u
      ensures match PcOf(s', u)
              case LookedUp(r, Some(m)) => r in home ==> home[r] == m
              case Removing(r, m) => r in home ==> home[r] == m
              case Checking(r, m) => r in home ==> home[r] == m
              case _ => true
    {
      assert PcOf(s', u) == if u == t then Target(s, t, a) else PcOf(s, u);
      var pc := PcOf(s, u);
    }
  }

  /** `s'` holds no reaction that `s` does not hold with the same stamp. */
  ghost predicate Shrunk(s: State, s': State) {
    forall m, r :: Holds(s', m, r) ==> Holds(s, m, r) && ReactionsOf(s', m)[r] == ReactionsOf(s, m)[r]
  }

  /** The reactions a task takes out: their stamps and places are gone afterwards. */
  ghost predicate Gone(s: State, s': State, m: Id, rs: set<Id>) {
    forall r :: r in rs ==> Holds(s, m, r) && !Holds(s', m, r)
  }

  function TakenFrom(s: State, t: Task, a: Action): (Id, set<Id>) {
    match PcOf(s, t)
    case Checking(r, m) => (m, if Holds(s, m, r) then {r} else {})
    case Idle => if a.StartExtracting? then (a.m, Elements(a.todo)) else ("", {})
    case _ => ("", {})
  }

  lemma ShrinksUnlessCaching(home: map<Id, Id>, s: State, t: Task, a: Action)
    requires Possible(home, s, t, a) && !(PcOf(s, t).Idle? && a.StartCaching?)
    ensures Shrunk(s, Apply(s, t, a)) && Apply(s, t, a).next == s.next
    ensures Gone(s, Apply(s, t, a), TakenFrom(s, t, a).0, TakenFrom(s, t, a).1)
  {
  }

  lemma CachingAdds(s: State, t: Task, m0: Id, r0: Id)
    requires PcOf(s, t).Idle?
    ensures var s' := Apply(s, t, StartCaching(m0, r0));
            && s'.next == s.next + 1 && Holds(s', m0, r0) && ReactionsOf(s', m0)[r0] == s.next
            && forall m, r :: Holds(s', m, r) && (m, r) != (m0, r0) ==>
                 Holds(s, m, r) && ReactionsOf(s', m)[r] == ReactionsOf(s, m)[r]
  {
  }

  lemma HomesKept(home: map<Id, Id>, s: State, t: Task, a: Action)
    requires LocksAgree(s) && HolderReady(s) && Possible(home, s, t, a)
    requires HomesIndexed(home, s) && NeverIndexedElsewhere(home, s) && LookupsHome(home, s)
    ensures HomesIndexed(home, Apply(s, t, a)) && NeverIndexedElsewhere(home, Apply(s, t, a))
  {
    HolderMoves(s, t, a);
    var pc, s' := PcOf(s, t), Apply(s, t, a);
    if pc.Idle? && a.StartCaching? {
      CachingAdds(s, t, a.m, a.r);
    } else {
      ShrinksUnlessCaching(home, s, t, a);
      var (m, taken) := TakenFrom(s, t, a);
      assert forall r :: r in taken && r in home ==> home[r] == m;
      assert Stale(Holder(s')) <= Stale(Holder(s)) + taken;
    }
  }

  lemma LiveKept(home: map<Id, Id>, s: State, t: Task, a: Action)
    requires Possible(home, s, t, a) && StampsFresh(s) && LiveStampsDistinct(s)
    ensures LiveStampsDistinct(Apply(s, t, a))
  {
    if PcOf(s, t).Idle? && a.StartCaching? {
      CachingAdds(s, t, a.m, a.r);
    } else {
      ShrinksUnlessCaching(home, s, t, a);
    }
  }

  /** Stamps come into the hand from the reactions taken out, and are returned from the hand. */
  lemma HandMoves(home: map<Id, Id>, s: State, t: Task, a: Action)
    requires LocksAgree(s) && Possible(home, s, t, a) && !(PcOf(s, t).Idle? && a.StartCaching?)
    ensures var s', (m, taken) := Apply(s, t, a), TakenFrom(s, t, a);
            && (forall x :: x in InHand(Holder(s')) ==>
                 x in InHand(Holder(s)) || exists r :: r in taken && Holds(s, m, r) && x == ReactionsOf(s, m)[r])
            && (s'.handed == s.handed
                || exists x :: x in InHand(Holder(s)) && InHand(Holder(s')) == {} && s'.handed == s.handed + [x])
  {
    HolderMoves(s, t, a);
    ShrinksUnlessCaching(home, s, t, a);
  }

  lemma StampsKept(home: map<Id, Id>, s: State, t: Task, a: Action)
    requires LocksAgree(s) && HolderReady(s) && Possible(home, s, t, a)
    requires StampsFresh(s) && LiveStampsDistinct(s)
    ensures StampsFresh(Apply(s, t, a))
  {
    var s' := Apply(s, t, a);
    if PcOf(s, t).Idle? && a.StartCaching? {
      HolderMoves(s, t, a);
      CachingAdds(s, t, a.m, a.r);
      assert s'.handed == s.handed && InHand(Holder(s')) == {};
    } else {
      ShrinksUnlessCaching(home, s, t, a);
      HandMoves(home, s, t, a);
    }
  }

  // ---- Every reachable state ----

  ghost predicate Inv(home: map<Id, Id>, s: State) {
    && LocksAgree(s) && HolderReady(s) && EntriesHold(s)
    && HomesIndexed(home, s) && NeverIndexedElsewhere(home, s) && LookupsHome(home, s)
    && StampsFresh(s) && LiveStampsDistinct(s)
  }

  datatype Move = Move(task: Task, action: Action)

  /** `s` is reached from the empty caches by these moves of any tasks. */
  ghost predicate Reached(home: map<Id, Id>, s: State, moves: seq<Move>)
    decreases |moves|
  {
    if moves == [] then Init(s) else
      exists prior :: Reached(home, prior, Front(moves)) && Moves(home, prior, Last(moves), s)
  }

  ghost predicate Moves(home: map<Id, Id>, s: State, move: Move, s': State) {
    Possible(home, s, move.task, move.action) && s' == Apply(s, move.task, move.action)
  }

  lemma {:induction false} InvAlways(home: map<Id, Id>, s: State, moves: seq<Move>)
    requires Reached(home, s, moves)
    ensures Inv(home, s)
    decreases |moves|
  {
    if moves == [] {
    } else {
      var prior :| Reached(home, prior, Front(moves)) && Moves(home, prior, Last(moves), s);
      InvAlways(home, prior, Front(moves));
      var Move(t, a) := Last(moves);
      LocksKept(prior, t, a);
      ReadyKept(home, prior, t, a);
      EntriesKept(home, prior, t, a);
      HomesKept(home, prior, t, a);
      LookupsKept(home, prior, t, a);
      StampsKept(home, prior, t, a);
      LiveKept(home, prior, t, a);
    }
  }

  /** Whenever the messages lock is free, every index entry points to a message holding that reaction. */
  lemma EntriesHoldWhenFree(home: map<Id, Id>, s: State, moves: seq<Move>)
    requires Reached(home, s, moves) && s.messagesLock.None?
    ensures forall r :: r in s.index ==> Holds(s, s.index[r], r)
  {
    InvAlways(home, s, moves);
  }

  /** For ids that always name the same message, the index is then the exact inverse of the reaction maps. */
  lemma ExactInverseWhenFree(home: map<Id, Id>, s: State, moves: seq<Move>)
    requires Reached(home, s, moves) && s.messagesLock.None?
    ensures forall m, r :: r in home ==> (Holds(s, m, r) <==> r in s.index && s.index[r] == m)
  {
    InvAlways(home, s, moves);
    EntriesHoldWhenFree(home, s, moves);
  }

  /** No caching of a reaction is handed out by two removals. */
  lemma HandedOutOnce(home: map<Id, Id>, s: State, moves: seq<Move>)
    requires Reached(home, s, moves)
    ensures NoDuplicates(s.handed)
    ensures forall m, r :: Holds(s, m, r) ==> ReactionsOf(s, m)[r] !in s.handed
  {
    InvAlways(home, s, moves);
  }

  /** Locks are nested only as messages, then index: nobody waits for the messages lock with the index locked. */
  lemma LocksNested(s: State, t: Task, a: Action)
    ensures HoldsMessages(Target(s, t, a)) && !HoldsMessages(PcOf(s, t)) ==> !HoldsIndex(PcOf(s, t))
    ensures HoldsIndex(PcOf(s, t)) ==> LocksFree(s, t, Target(s, t, a))
  {
  }

  /** As long as a task is busy, some busy task can proceed. */
  lemma NoDeadlock(home: map<Id, Id>, s: State, moves: seq<Move>, busy: Task) returns (t: Task)
    requires Reached(home, s, moves) && !PcOf(s, busy).Idle?
    ensures !PcOf(s, t).Idle? && Possible(home, s, t, Proceed)
  {
    InvAlways(home, s, moves);
    if s.indexLock.Some? {
      t := s.indexLock.value;
    } else if s.messagesLock.Some? {
      t := s.messagesLock.value;
    } else {
      t := busy;
    }
    assert (s.messagesLock == Some(t) <==> HoldsMessages(PcOf(s, t)))
      && (s.indexLock == Some(t) <==> HoldsIndex(PcOf(s, t)));
  }
}
