/** Device verification: two nested loops that share one queue of actions (src/verification.rs, src/sas.rs). */
module Verification {
  import opened Collections

  datatype Action = Cancel | Confirm | SelectMethod(symbols: bool)

  datatype Method = SasV1 | OtherMethod(name: string)

  datatype RequestState =
    | Created
    | Requested
    | Ready(ours: seq<Method>, theirs: seq<Method>)
    | Transitioned(verification: Option<seq<SasState>>)
    | Done
    | Cancelled

  datatype SasState =
    | Created
    | Started
    | Accepted
    | KeysExchanged(emojis: Option<string>, decimals: (nat, nat, nat))
    | Confirmed
    | Done
    | Cancelled

  datatype Code = Symbols(emojis: string) | StringCode(decimals: (nat, nat, nat))

  datatype EndResult = Successful(success: bool) | Error(message: string)

  datatype Event = Start(methods: seq<CrossSigning>) | MethodSelected(code: Code) | End(result: EndResult)

  datatype CrossSigning = SasString | SasSymbol

  datatype StartSas = StartFailed(error: string) | NoSas | SasStarted(changes: seq<SasState>)

  /** What the SDK answers if it is called; `None` is success, otherwise it is the error. */
  datatype Sdk = Sdk(cancel: Option<string>, accept: Option<string>, confirm: Option<string>, startSas: StartSas)

  /** One turn of a select loop: which branch is ready, and the answers of the SDK during it. */
  datatype Turn = Turn(onAction: bool, sdk: Sdk)

  const UNSUPPORTED := "Verification request transitioned into an unsupported verification flow"
  const NOT_STARTED := "Error starting SAS request"

  // ---- The flat machine ----

  datatype Phase = Requesting(changes: seq<RequestState>) | InSas(sas: seq<SasState>) | Stopped

  datatype Machine = Machine(phase: Phase, actions: seq<Action>, events: seq<Event>)

  function EndsWith(m: Machine, result: EndResult): Machine {
    m.(phase := Stopped, events := m.events + [End(result)])
  }

  function Cancelling(m: Machine, sdk: Sdk): Machine {
    EndsWith(m, if sdk.cancel.Some? then Error(sdk.cancel.value) else Successful(false))
  }

  function OnRequestState(m: Machine, s: RequestState, sdk: Sdk): Machine {
    match s
    case Created => m
    case Requested => m
    case Ready(ours, theirs) => m.(events := m.events + [Start(Available(ours, theirs))])
    case Transitioned(None) => EndsWith(m, Error(UNSUPPORTED))
    case Transitioned(Some(sas)) =>
      if sdk.accept.Some? then EndsWith(m, Error(sdk.accept.value)) else m.(phase := InSas(sas))
    case Done => m.(phase := Stopped)
    case Cancelled => EndsWith(m, Successful(false))
  }

  function OnRequestAction(m: Machine, a: Action, sdk: Sdk): Machine {
    match a
    case Cancel => Cancelling(m, sdk)
    case Confirm => m
    case SelectMethod(_) =>
      match sdk.startSas
      case StartFailed(error) => EndsWith(m, Error(error))
      case NoSas => EndsWith(m, Error(NOT_STARTED))
      case SasStarted(changes) => m.(phase := InSas(changes))
  }

  function OnSasState(m: Machine, s: SasState): Machine {
    match s
    case KeysExchanged(emojis, decimals) =>
      m.(events := m.events + [MethodSelected(if emojis.Some? then Symbols(emojis.value) else StringCode(decimals))])
    case Done => EndsWith(m, Successful(true))
    case Cancelled => EndsWith(m, Successful(false))
    case _ => m
  }

  function OnSasAction(m: Machine, a: Action, sdk: Sdk): Machine {
    match a
    case Cancel => Cancelling(m, sdk)
    case Confirm => if sdk.confirm.Some? then EndsWith(m, Error(sdk.confirm.value)) else m
    case SelectMethod(_) => m
  }

  function Step(m: Machine, t: Turn): Machine {
    match m.phase
    case Stopped => m
    case Requesting(changes) =>
      if t.onAction then
        if m.actions == [] then m.(phase := Stopped)
        else OnRequestAction(m.(actions := m.actions[1..]), m.actions[0], t.sdk)
      else if changes == [] then m.(phase := Stopped)
      else OnRequestState(m.(phase := Requesting(changes[1..])), changes[0], t.sdk)
    case InSas(sas) =>
      if t.onAction then
        if m.actions == [] then m.(phase := Stopped)
        else OnSasAction(m.(actions := m.actions[1..]), m.actions[0], t.sdk)
      else if sas == [] then m.(phase := Stopped)
      else OnSasState(m.(phase := InSas(sas[1..])), sas[0])
  }

  /** The offers made when both devices are ready: two for each of our methods that both support and we know. */
  ghost predicate OffersFor(ours: seq<Method>, theirs: seq<Method>, offers: seq<CrossSigning>) {
    && |offers| == 2 * (if SasV1 in theirs then multiset(ours)[SasV1] else 0)
    && forall i :: 0 <= i < |offers| ==> offers[i] == if i % 2 == 0 then SasString else SasSymbol
  }

  ghost predicate Sends(m: Machine, n: Machine, e: Event) {
    n.events == m.events + [e]
  }

  /** What reading the next state of a verification request does. */
  lemma RequestStateTells(m: Machine, t: Turn)
    requires m.phase.Requesting? && m.phase.changes != [] && !t.onAction
    ensures var n, rest := Step(m, t), m.phase.changes[1..];
      n.actions == m.actions &&
      match m.phase.changes[0]
      case Ready(ours, theirs) =>
        n.phase == Requesting(rest) && exists offers :: OffersFor(ours, theirs, offers) && Sends(m, n, Start(offers))
      case Transitioned(None) => n.phase.Stopped? && Sends(m, n, End(Error(UNSUPPORTED)))
      case Transitioned(Some(sas)) =>
        if t.sdk.accept.Some? then n.phase.Stopped? && Sends(m, n, End(Error(t.sdk.accept.value)))
        else n.phase == InSas(sas) && n.events == m.events
      case Done => n.phase.Stopped? && n.events == m.events
      case Cancelled => n.phase.Stopped? && Sends(m, n, End(Successful(false)))
      case _ => n.phase == Requesting(rest) && n.events == m.events
  {
    if m.phase.changes[0].Ready? {
      var ours, theirs := m.phase.changes[0].ours, m.phase.changes[0].theirs;
      OffersAre(ours, theirs);
      assert Sends(m, Step(m, t), Start(Available(ours, theirs)));
    }
  }

  /** What taking the next action does while the request is open. */
  lemma RequestActionTells(m: Machine, t: Turn)
    requires m.phase.Requesting? && m.actions != [] && t.onAction
    ensures var n := Step(m, t);
      n.actions == m.actions[1..] &&
      match m.actions[0]
      case Cancel => n.phase.Stopped? && Sends(m, n, CancelEnd(t.sdk))
      case Confirm => n.phase == m.phase && n.events == m.events
      case SelectMethod(_) =>
        match t.sdk.startSas
        case StartFailed(error) => n.phase.Stopped? && Sends(m, n, End(Error(error)))
        case NoSas => n.phase.Stopped? && Sends(m, n, End(Error(NOT_STARTED)))
        case SasStarted(changes) => n.phase == InSas(changes) && n.events == m.events
  {
  }

  /** A cancellation that fails is reported with its error. */
  function CancelEnd(sdk: Sdk): Event {
    End(if sdk.cancel.Some? then Error(sdk.cancel.value) else Successful(false))
  }

  /** What reading the next state of a SAS verification does; exchanged keys are shown as emojis if there are any. */
  lemma SasStateTells(m: Machine, t: Turn)
    requires m.phase.InSas? && m.phase.sas != [] && !t.onAction
    ensures var n, rest := Step(m, t), m.phase.sas[1..];
      n.actions == m.actions &&
      match m.phase.sas[0]
      case KeysExchanged(Some(emojis), _) => n.phase == InSas(rest) && Sends(m, n, MethodSelected(Symbols(emojis)))
      case KeysExchanged(None, decimals) => n.phase == InSas(rest) && Sends(m, n, MethodSelected(StringCode(decimals)))
      case Done => n.phase.Stopped? && Sends(m, n, End(Successful(true)))
      case Cancelled => n.phase.Stopped? && Sends(m, n, End(Successful(false)))
      case _ => n.phase == InSas(rest) && n.events == m.events
  {
  }

  /** What taking the next action does during it. */
  lemma SasActionTells(m: Machine, t: Turn)
    requires m.phase.InSas? && m.actions != [] && t.onAction
    ensures var n := Step(m, t);
      n.actions == m.actions[1..] &&
      match m.actions[0]
      case Cancel => n.phase.Stopped? && Sends(m, n, CancelEnd(t.sdk))
      case Confirm =>
        if t.sdk.confirm.Some? then n.phase.Stopped? && Sends(m, n, End(Error(t.sdk.confirm.value)))
        else n.phase == m.phase && n.events == m.events
      case SelectMethod(_) => n.phase == m.phase && n.events == m.events
  {
  }

  function RunAll(m: Machine, turns: seq<Turn>): Machine
    decreases |turns|
  {
    if turns == [] then m else RunAll(Step(m, turns[0]), turns[1..])
  }

  // ---- Traces ----

  function Kind(e: Event): int {
    match e
    case Start(_) => 0
    case MethodSelected(_) => 1
    case End(_) => 2
  }

  /** Starts, then selected methods, then at most one end; it ends only when the task stops. */
  ghost predicate Trace(m: Machine) {
    && (forall i, j :: 0 <= i < j < |m.events| ==> Kind(m.events[i]) <= Kind(m.events[j]))
    && (m.phase.Requesting? ==> forall i :: 0 <= i < |m.events| ==> m.events[i].Start?)
    && (!m.phase.Stopped? ==> forall i :: 0 <= i < |m.events| ==> !m.events[i].End?)
    && (forall i :: 0 <= i < |m.events| - 1 ==> !m.events[i].End?)
  }

  lemma AppendKeepsTrace(m: Machine, n: Machine, e: Event)
    requires Trace(m) && !m.phase.Stopped? && n.events == m.events + [e]
    requires e.Start? ==> m.phase.Requesting? && n.phase.Requesting?
    requires e.MethodSelected? ==> n.phase.InSas?
    requires e.End? ==> n.phase.Stopped?
    ensures Trace(n)
  {
    assert forall i :: 0 <= i < |m.events| ==> n.events[i] == m.events[i];
    assert forall i :: 0 <= i < |m.events| ==> Kind(m.events[i]) <= Kind(e);
  }

  lemma StepKeepsTrace(m: Machine, t: Turn)
    requires Trace(m)
    ensures Trace(Step(m, t))
  {
    var n := Step(m, t);
    if n.events == m.events {
      assert n.phase.Requesting? ==> m.phase.Requesting?;
    } else {
      AppendKeepsTrace(m, n, Last(n.events));
    }
  }

  lemma {:induction false} TraceAlways(m: Machine, turns: seq<Turn>)
    requires Trace(m)
    ensures Trace(RunAll(m, turns))
    decreases |turns|
  {
    if turns == [] {
    } else {
      StepKeepsTrace(m, turns[0]);
      TraceAlways(Step(m, turns[0]), turns[1..]);
    }
  }

  /** Whatever the schedule of states and actions, nothing is sent and no action is taken after the stop. */
  lemma {:induction false} StoppedStays(m: Machine, turns: seq<Turn>)
    requires m.phase.Stopped?
    ensures RunAll(m, turns) == m
    decreases |turns|
  {
    if turns == [] {
    } else {
      StoppedStays(m, turns[1..]);
    }
  }

  ghost predicate Ended(m: Machine) {
    m.events != [] && Last(m.events).End?
  }

  predicate StreamExhausted(m: Machine) {
    (m.phase.Requesting? && m.phase.changes == []) || (m.phase.InSas? && m.phase.sas == [])
  }

  /**
   * A turn stops the task without an end event exactly if a stream ended, the sender is gone, or the request is
   * done.
   */
  lemma SilentStopIff(m: Machine, t: Turn)
    requires !m.phase.Stopped? && Trace(m)
    ensures Step(m, t).phase.Stopped? && !Ended(Step(m, t)) <==>
            (if t.onAction then m.actions == []
             else StreamExhausted(m) || (m.phase.Requesting? && m.phase.changes[0].Done?))
    ensures Step(m, t).phase.Stopped? && !Ended(Step(m, t)) ==> Step(m, t).events == m.events
    ensures Ended(Step(m, t)) ==> Step(m, t).phase.Stopped? && Step(m, t).events == m.events + [Last(Step(m, t).events)]
  {
  }

  /** Success is reported exactly when the SAS verification reads its Done state. */
  lemma SuccessIff(m: Machine, t: Turn)
    requires !m.phase.Stopped? && Trace(m)
    ensures Ended(Step(m, t)) && Last(Step(m, t).events) == End(Successful(true)) <==>
            m.phase.InSas? && !t.onAction && m.phase.sas != [] && m.phase.sas[0].Done?
  {
  }

  function TakenNow(m: Machine, t: Turn): seq<Action> {
    if t.onAction && m.actions != [] then [m.actions[0]] else []
  }

  /** The actions that both loops together take in a run. */
  function Taken(m: Machine, turns: seq<Turn>): seq<Action>
    decreases |turns|
  {
    if turns == [] || m.phase.Stopped? then []
    else
      TakenNow(m, turns[0]) + Taken(Step(m, turns[0]), turns[1..])
  }

  lemma StepActions(m: Machine, t: Turn)
    requires !m.phase.Stopped?
    ensures m.actions == TakenNow(m, t) + Step(m, t).actions
  {
  }

  /** They are a prefix of the queue, each taken once, and the rest is still queued. */
  lemma {:induction false} ActionsConserved(m: Machine, turns: seq<Turn>)
    ensures Taken(m, turns) + RunAll(m, turns).actions == m.actions
    decreases |turns|
  {
    if m.phase.Stopped? {
      StoppedStays(m, turns);
    } else if turns == [] {
    } else {
      var next := Step(m, turns[0]);
      StepActions(m, turns[0]);
      ActionsConserved(next, turns[1..]);
      Regroup(TakenNow(m, turns[0]), Taken(next, turns[1..]), RunAll(next, turns[1..]).actions);
    }
  }

  lemma Regroup<T>(a: seq<T>, b: seq<T>, c: seq<T>)
    ensures (a + b) + c == a + (b + c)
  {
  }

  // ---- Methods both devices support ----

  function Available(ours: seq<Method>, theirs: seq<Method>): seq<CrossSigning> {
    CrossSigningOf(Shared(ours, theirs))
  }

  function Shared(ours: seq<Method>, theirs: seq<Method>): seq<Method> {
    if ours == [] then []
    else Shared(Front(ours), theirs) + if Last(ours) in theirs then [Last(ours)] else []
  }

  function CrossSigningOf(methods: seq<Method>): seq<CrossSigning> {
    if methods == [] then []
    else CrossSigningOf(Front(methods)) + if Last(methods).SasV1? then [SasString, SasSymbol] else []
  }

  /** A SAS is offered exactly if both devices support it. */
  lemma {:induction false} AvailableIff(ours: seq<Method>, theirs: seq<Method>)
    ensures Available(ours, theirs) != [] <==> SasV1 in ours && SasV1 in theirs
  {
    if ours == [] {
    } else {
      var front, m := Front(ours), Last(ours);
      assert ours == front + [m];
      AvailableIff(front, theirs);
      if m in theirs {
        assert Front(Shared(front, theirs) + [m]) == Shared(front, theirs);
      } else {
        assert Shared(front, theirs) + [] == Shared(front, theirs);
      }
    }
  }

  lemma OffersMore(front: seq<Method>, m: Method, theirs: seq<Method>, offers: seq<CrossSigning>, more: bool)
    requires OffersFor(front, theirs, offers) && (more <==> m.SasV1? && m in theirs)
    ensures OffersFor(front + [m], theirs, offers + if more then [SasString, SasSymbol] else [])
  {
    assert multiset(front + [m]) == multiset(front) + multiset{m};
  }

  lemma {:induction false} OffersAre(ours: seq<Method>, theirs: seq<Method>)
    ensures OffersFor(ours, theirs, Available(ours, theirs))
  {
    if ours == [] {
    } else {
      var front, m := Front(ours), Last(ours);
      assert ours == front + [m];
      OffersAre(front, theirs);
      OffersMore(front, m, theirs, Available(front, theirs), m.SasV1? && m in theirs);
      var shared := Shared(front, theirs);
      assert Front(shared + [m]) == shared && Last(shared + [m]) == m && shared + [] == shared;
      assert Available(front, theirs) + [] == Available(front, theirs);
    }
  }

  method GetAvailableMethods(ours: seq<Method>, theirs: seq<Method>) returns (r: seq<CrossSigning>)
    ensures r == Available(ours, theirs)
    ensures OffersFor(ours, theirs, r)
  {
    var matching: seq<Method> := [];
    for i := 0 to |ours|
      invariant matching == Shared(ours[..i], theirs)
    {
      var j := 0;
      while j < |theirs| && ours[i] != theirs[j]
        invariant j <= |theirs| && ours[i] !in theirs[..j]
      {
        j := j + 1;
      }
      assert j == |theirs| ==> theirs[..j] == theirs;
      assert Front(ours[..i + 1]) == ours[..i];
      if j < |theirs| {
        matching := matching + [ours[i]];
      }
    }
    assert ours[..|ours|] == ours;
    r := [];
    for i := 0 to |matching|
      invariant r == CrossSigningOf(matching[..i])
    {
      assert Front(matching[..i + 1]) == matching[..i];
      if matching[i].SasV1? {
        r := r + [SasString];
        r := r + [SasSymbol];
      }
    }
    assert matching[..|matching|] == matching;
    OffersAre(ours, theirs);
  }

  // ---- The loops ----

  /** The channel to the application. */
  class Context {
    var events: seq<Event>

    method SendEvent(e: Event)
      modifies this
      ensures events == old(events) + [e]
    {
      events := events + [e];
    }
  }

  /** The receiver of the actions, shared by both loops; at its end the sender is gone. */
  class ActionReceiver {
    var actions: seq<Action>

    method Recv() returns (a: Option<Action>)
      modifies this
      ensures if old(actions) == [] then a.None? && actions == []
              else a == Some(old(actions)[0]) && actions == old(actions)[1..]
    {
      if actions == [] {
        return None;
      }
      a := Some(actions[0]);
      actions := actions[1..];
    }
  }

  class SasVerificationManager {
    const ctx: Context
    const actionRx: ActionReceiver
    var stream: seq<SasState>

    constructor (ctx: Context, actionRx: ActionReceiver, stream: seq<SasState>)
      ensures this.ctx == ctx && this.actionRx == actionRx && this.stream == stream
    {
      this.ctx, this.actionRx, this.stream := ctx, actionRx, stream;
    }

    ghost function State(): Machine
      reads this, ctx, actionRx
    {
      Machine(InSas(stream), actionRx.actions, ctx.events)
    }

    /** What is left to observe: the phase apart, the queue and what was sent. */
    ghost predicate Agrees(m: Machine, stop: bool)
      reads this, ctx, actionRx
    {
      && ctx.events == m.events && actionRx.actions == m.actions
      && m.phase == if stop then Stopped else InSas(stream)
    }

    /** The loop, on the rest of the schedule; it ends early when the verification stops. */
    method Run(turns: seq<Turn>) returns (used: nat, stopped: bool)
      modifies this, ctx, actionRx
      ensures used <= |turns| && (!stopped ==> used == |turns|)
      ensures Agrees(RunAll(old(State()), turns), stopped)
    {
      used, stopped := 0, false;
      while used < |turns| && !stopped
        invariant used <= |turns|
        invariant stopped ==> Agrees(RunAll(old(State()), turns), true)
        invariant !stopped ==> RunAll(State(), turns[used..]) == RunAll(old(State()), turns)
        decreases |turns| - used
      {
        ghost var before, rest := State(), turns[used..];
        var t := turns[used];
        used := used + 1;
        assert rest[0] == t && rest[1..] == turns[used..];
        stopped := Turn(t);
        if stopped {
          StoppedStays(Step(before, t), turns[used..]);
        }
      }
    }

    method Turn(t: Turn) returns (stop: bool)
      modifies this, ctx, actionRx
      ensures Agrees(Step(old(State()), t), stop)
    {
      if t.onAction {
        var action := actionRx.Recv();
        stop := ProcessAction(action, t.sdk);
      } else if stream != [] {
        var state := stream[0];
        stream := stream[1..];
        stop := ProcessStateChange(state);
      } else {
        stop := true;
      }
    }

    method ProcessStateChange(state: SasState) returns (stop: bool)
      modifies ctx
      ensures Agrees(OnSasState(old(State()), state), stop)
    {
      match state
      case KeysExchanged(emojis, decimals) =>
        PresentSas(emojis, decimals);
        return false;
      case Done =>
        ctx.SendEvent(End(Successful(true)));
        return true;
      case Cancelled =>
        ctx.SendEvent(End(Successful(false)));
        return true;
      case _ =>
        return false;
    }

    method PresentSas(emojis: Option<string>, decimals: (nat, nat, nat))
      modifies ctx
      ensures ctx.events == old(ctx.events) +
              [MethodSelected(if emojis.Some? then Symbols(emojis.value) else StringCode(decimals))]
    {
      var code := if emojis.Some? then Symbols(emojis.value) else StringCode(decimals);
      ctx.SendEvent(MethodSelected(code));
    }

    method ProcessAction(action: Option<Action>, sdk: Sdk) returns (stop: bool)
      modifies ctx
      ensures Agrees(if action.None? then old(State()).(phase := Stopped)
                     else OnSasAction(old(State()), action.value, sdk), stop)
    {
      if action.None? {
        return true;
      }
      match action.value
      case Cancel =>
        if sdk.cancel.Some? {
          ctx.SendEvent(End(Error(sdk.cancel.value)));
        } else {
          ctx.SendEvent(End(Successful(false)));
        }
        return true;
      case Confirm =>
        if sdk.confirm.Some? {
          ctx.SendEvent(End(Error(sdk.confirm.value)));
          return true;
        }
        return false;
      case SelectMethod(_) =>
        return false;
    }
  }

  class VerificationProcessor {
    const ctx: Context
    const actionRx: ActionReceiver
    var stream: seq<RequestState>

    constructor (ctx: Context, actionRx: ActionReceiver, stream: seq<RequestState>)
      ensures this.ctx == ctx && this.actionRx == actionRx && this.stream == stream
    {
      this.ctx, this.actionRx, this.stream := ctx, actionRx, stream;
    }

    ghost function State(): Machine
      reads this, ctx, actionRx
    {
      Machine(Requesting(stream), actionRx.actions, ctx.events)
    }

    /** The queue and what was sent are as in `m`, and `m` has stopped exactly if the task has. */
    ghost predicate Agrees(m: Machine, stopped: bool)
      reads this, ctx, actionRx
    {
      ctx.events == m.events && actionRx.actions == m.actions && m.phase.Stopped? == stopped
    }

    /** The outer loop with all inner loops refines the flat machine, turn by turn of the schedule. */
    method WaitForChanges(turns: seq<Turn>) returns (stopped: bool)
      modifies this, ctx, actionRx
      ensures Agrees(RunAll(old(State()), turns), stopped)
    {
      var used := 0;
      stopped := false;
      while used < |turns| && !stopped
        invariant used <= |turns|
        invariant stopped || used == |turns| ==> Agrees(RunAll(old(State()), turns), stopped)
        invariant !stopped && used < |turns| ==> RunAll(State(), turns[used..]) == RunAll(old(State()), turns)
        decreases |turns| - used
      {
        ghost var rest := turns[used..];
        var t := turns[used];
        assert rest[0] == t && rest[1..] == turns[used + 1..];
        var more: nat;
        stopped, more := OneTurn(t, turns[used + 1..]);
        assert turns[used + 1..][more..] == turns[used + 1 + more..];
        used := used + 1 + more;
      }
    }

    /** What is promised of a turn that may enter an inner loop: that loop uses `more` of the following turns. */
    ghost predicate Reached(m: Machine, next: seq<Turn>, stopped: bool, more: nat)
      requires more <= |next|
      reads this, ctx, actionRx
    {
      if stopped || more == |next| then Agrees(RunAll(m, next), stopped)
      else RunAll(State(), next[more..]) == RunAll(m, next)
    }

    method OneTurn(t: Turn, next: seq<Turn>) returns (stopped: bool, more: nat)
      modifies this, ctx, actionRx
      ensures more <= |next| && Reached(Step(old(State()), t), next, stopped, more)
    {
      more := 0;
      if t.onAction {
        var action := actionRx.Recv();
        stopped, more := ProcessAction(action, t.sdk, next);
      } else if stream != [] {
        var state := stream[0];
        stream := stream[1..];
        stopped, more := ProcessStateChange(state, t.sdk, next);
      } else {
        stopped := true;
        StoppedStays(State().(phase := Stopped), next);
      }
    }

    method ProcessStateChange(state: RequestState, sdk: Sdk, next: seq<Turn>) returns (stopped: bool, more: nat)
      modifies ctx, actionRx
      ensures more <= |next| && Reached(OnRequestState(old(State()), state, sdk), next, stopped, more)
    {
      ghost var after := OnRequestState(State(), state, sdk);
      stopped, more := false, 0;
      match state {
        case Ready(ours, theirs) =>
          var methods := GetAvailableMethods(ours, theirs);
          ctx.SendEvent(Start(methods));
        case Transitioned(None) =>
          CancelErr(UNSUPPORTED);
          stopped := true;
        case Transitioned(Some(sas)) =>
          if sdk.accept.Some? {
            CancelErr(sdk.accept.value);
            stopped := true;
          } else {
            stopped, more := RunSas(sas, next);
            return;
          }
        case Done =>
          stopped := true;
        case Cancelled =>
          ctx.SendEvent(End(Successful(false)));
          stopped := true;
        case _ =>
      }
      if stopped {
        StoppedStays(after, next);
      }
    }

    method ProcessAction(action: Option<Action>, sdk: Sdk, next: seq<Turn>) returns (stopped: bool, more: nat)
      modifies ctx, actionRx
      ensures more <= |next|
      ensures Reached(if action.None? then old(State()).(phase := Stopped)
                      else OnRequestAction(old(State()), action.value, sdk), next, stopped, more)
    {
      stopped, more := true, 0;
      if action.None? {
        StoppedStays(State().(phase := Stopped), next);
        return;
      }
      ghost var after := OnRequestAction(State(), action.value, sdk);
      match action.value
      case Cancel =>
        CancelFlow(sdk);
        StoppedStays(after, next);
      case SelectMethod(_) =>
        match sdk.startSas {
          case StartFailed(error) =>
            CancelErr(error);
            StoppedStays(after, next);
          case NoSas =>
            CancelErr(NOT_STARTED);
            StoppedStays(after, next);
          case SasStarted(changes) =>
            stopped, more := RunSas(changes, next);
        }
      case Confirm =>
        stopped := false;
    }

    /** The inner loop on the shared queue; after it the outer loop stops. */
    method RunSas(sas: seq<SasState>, next: seq<Turn>) returns (stopped: bool, more: nat)
      modifies ctx, actionRx
      ensures more <= |next| && (!stopped ==> more == |next|)
      ensures Agrees(RunAll(old(State()).(phase := InSas(sas)), next), stopped)
    {
      var manager := new SasVerificationManager(ctx, actionRx, sas);
      more, stopped := manager.Run(next);
    }

    method CancelFlow(sdk: Sdk)
      modifies ctx
      ensures ctx.events == Cancelling(old(State()), sdk).events
    {
      if sdk.cancel.Some? {
        ctx.SendEvent(End(Error(sdk.cancel.value)));
      } else {
        ctx.SendEvent(End(Successful(false)));
      }
    }

    /** Whether the cancelling itself fails is only logged. */
    method CancelErr(error: string)
      modifies ctx
      ensures ctx.events == old(ctx.events) + [End(Error(error))]
    {
      ctx.SendEvent(End(Error(error)));
    }
  }
}
